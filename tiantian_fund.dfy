/**
 * The Tiantian (fund.eastmoney.com) mutual-fund provider
 * (src-core/src/market_data/providers/tiantian_fund_provider.rs): symbol
 * parsing, the JSONP and profile-script slicing, the quote built from a
 * net asset value, the latest-quote fields, and the paged history fetch.
 * HTTP responses and the JSON decoder are inputs; decimal and date
 * parsing are parameters.
 */
module TiantianFundProvider {
  import opened Wrappers
  import opened Strings
  import opened MarketQuotes
  import SymbolNormalizer

  const HistoryPageSize: nat := 200
  const MaxHistoryPages: nat := 60

  // ---------------------------------------------------------------------
  // Symbols
  // ---------------------------------------------------------------------

  /**
   * `parse_fund_symbol`: the trimmed, upper-cased symbol and its six-digit
   * fund code, for "<code>.FUND" or a bare code; anything else is refused.
   */
  function ParseFundSymbol(symbol: string): (r: Option<(string, string)>)
    ensures r.Some? ==> r.value.0 == SymbolNormalizer.Canonical(symbol) && IsSixDigitCode(r.value.1)
    ensures r.Some? ==> r.value.0 == r.value.1 || r.value.0 == SymbolNormalizer.WithMarket(r.value.1, "FUND")
  {
    var n := SymbolNormalizer.Canonical(symbol);
    match SplitOnce(n, '.')
    case Some((code, market)) =>
      if market == "FUND" && IsSixDigitCode(code) then Some((n, code)) else None
    case None =>
      if IsSixDigitCode(n) then Some((n, n)) else None
  }

  /** Exactly "<six digits>.FUND" and bare six digits are accepted, after trimming and upper-casing. */
  lemma FundSymbolAccepted(symbol: string)
    ensures var n := SymbolNormalizer.Canonical(symbol);
            ParseFundSymbol(symbol).Some? <==> SymbolNormalizer.CodeWithMarket(n, "FUND") || IsSixDigitCode(n)
  {
    var n := SymbolNormalizer.Canonical(symbol);
    if SymbolNormalizer.CodeWithMarket(n, "FUND") {
      SymbolNormalizer.CodeWithMarketIsWithMarket(n, "FUND");
      SymbolNormalizer.DigitsFreeOf(n[..6], '.');
      SplitOnceOfJoin(n[..6], '.', "FUND");
    } else if IsSixDigitCode(n) {
      SymbolNormalizer.DigitsFreeOf(n, '.');
    }
  }

  /** Every symbol the normaliser routes to this provider is accepted by it. */
  lemma RoutedSymbolsAreAccepted(symbol: string)
    requires SymbolNormalizer.InferPanoramaDataSource(symbol) == Some(SymbolNormalizer.TiantianFund)
    ensures ParseFundSymbol(symbol).Some?
  {
    SymbolNormalizer.InferDataSourceExact(symbol);
    FundSymbolAccepted(symbol);
  }

  /** The normalised symbol parses back to itself and the same code. */
  lemma ParseFundSymbolIdempotent(symbol: string)
    requires ParseFundSymbol(symbol).Some?
    ensures ParseFundSymbol(ParseFundSymbol(symbol).value.0) == ParseFundSymbol(symbol)
  {
    var n := SymbolNormalizer.Canonical(symbol);
    SymbolNormalizer.CanonicalShape(symbol);
    SymbolNormalizer.CanonicalOfCanonical(n);
  }

  /** A six-digit code followed by a market word parses iff the word is FUND. */
  lemma ParseCodeWithMarket(code: string, market: string)
    requires IsSixDigitCode(code) && SymbolNormalizer.IsUpperWord(market)
    ensures var s := SymbolNormalizer.WithMarket(code, market);
            ParseFundSymbol(s) == if market == "FUND" then Some((s, code)) else None
  {
    var s := SymbolNormalizer.WithMarket(code, market);
    SymbolNormalizer.WithMarketFacts(code, market);
    SymbolNormalizer.CanonicalOfCanonical(s);
  }

  /** "161039.FUND" and "161039" both give the code 161039. */
  lemma SupportedSymbolExamples()
    ensures ParseFundSymbol("161039.FUND") == Some(("161039.FUND", "161039"))
    ensures ParseFundSymbol("161039") == Some(("161039", "161039"))
  {
    assert SymbolNormalizer.IsUpperWord("FUND");
    assert SymbolNormalizer.WithMarket("161039", "FUND") == "161039.FUND";
    ParseCodeWithMarket("161039", "FUND");
    assert IsSixDigitCode("161039");
    assert SymbolNormalizer.IsCanonical("161039") by { TrimOfTrimmed("161039", false); }
    SymbolNormalizer.CanonicalOfCanonical("161039");
    SymbolNormalizer.DigitsFreeOf("161039", '.');
  }

  /** Exchange and Hong Kong listings are refused. */
  lemma ListedSymbolExamples()
    ensures ParseFundSymbol("600519.SH").None?
    ensures ParseFundSymbol("0700.HK").None?
  {
    assert SymbolNormalizer.IsUpperWord("SH");
    assert SymbolNormalizer.WithMarket("600519", "SH") == "600519.SH";
    ParseCodeWithMarket("600519", "SH");
    assert SymbolNormalizer.IsUpperWord("HK");
    SymbolNormalizer.WithMarketFacts("0700", "HK");
    assert SymbolNormalizer.WithMarket("0700", "HK") == "0700.HK";
    SymbolNormalizer.CanonicalOfCanonical("0700.HK");
  }

  /** A US listing is refused. */
  lemma UsSymbolExample()
    ensures ParseFundSymbol("AAPL.US").None?
  {
    var s := "AAPL.US";
    assert SymbolNormalizer.IsCanonical(s) by {
      assert s[0] == 'A' && s[6] == 'S';
      forall i | 0 <= i < |s| ensures !IsAsciiLower(s[i]) {}
    }
    SymbolNormalizer.CanonicalOfCanonical(s);
    assert s == "AAPL" + "." + "US";
    SplitOnceOfJoin("AAPL", '.', "US");
  }

  // ---------------------------------------------------------------------
  // Field parsing
  // ---------------------------------------------------------------------

  /**
   * `parse_decimal`: blank text and the placeholder "--" are no value;
   * anything else is handed, trimmed, to the decimal parser `parse`.
   */
  function ParseDecimal(value: string, parse: string -> Option<real>): (r: Option<real>)
    ensures Trim(value) == [] || Trim(value) == "--" ==> r.None?
    ensures r.Some? ==> r == parse(Trim(value))
  {
    var t := Trim(value);
    if t == [] || t == "--" then None else parse(t)
  }

  /** Surrounding whitespace never changes the parsed value. */
  lemma ParseDecimalIgnoresPadding(value: string, parse: string -> Option<real>)
    ensures ParseDecimal(Trim(value), parse) == ParseDecimal(value, parse)
  {
    TrimIdempotent(value, false);
  }

  /**
   * `parse_jsonp_payload`: the trimmed text strictly between the first '('
   * and the last ')', if both exist in that order.
   */
  function ParseJsonpPayload(payload: string): (r: Option<string>)
    ensures '(' !in payload || ')' !in payload ==> r.None?
    ensures r.Some? ==> IsTrimmed(r.value, false)
  {
    match IndexOf(payload, '(')
    case None => None
    case Some(start) =>
      match LastIndexOf(payload, ')')
      case None => None
      case Some(end) =>
        if end <= start then None
        else
          TrimShape(payload[start + 1..end], false);
          Some(Trim(payload[start + 1..end]))
  }

  /** Wrapping a body in a callback call and reading it back gives the trimmed body, whatever brackets it holds. */
  lemma JsonpRoundTrip(callback: string, body: string, tail: string)
    requires '(' !in callback && ')' !in tail
    ensures ParseJsonpPayload(callback + "(" + body + ")" + tail) == Some(Trim(body))
  {
    var p := callback + "(" + body + ")" + tail;
    var open := |callback|;
    var close := |callback| + 1 + |body|;
    assert p[open] == '(' && p[close] == ')';
    assert IndexOf(p, '(') == Some(open) by {
      var k := IndexOf(p, '(').value;
      assert k <= open;
    }
    assert LastIndexOf(p, ')') == Some(close) by {
      var k := LastIndexOf(p, ')').value;
      assert k >= close;
    }
    assert p[open + 1..close] == body;
  }

  /** When every ')' comes before every '(', there is no payload. */
  lemma JsonpCloseBeforeOpen(front: string, back: string)
    requires '(' !in front && ')' !in back
    ensures ParseJsonpPayload(front + back).None?
  {
    var p := front + back;
    match IndexOf(p, '(')
    case None =>
    case Some(start) =>
      assert start >= |front|;
      match LastIndexOf(p, ')')
      case None =>
      case Some(end) =>
        assert end < |front|;
  }

  const NameMarker: string := "var fS_name = \""

  /**
   * `parse_fund_name_from_profile_js`: the trimmed text between the first
   * `var fS_name = "` and the next '"'; no marker, no closing quote or a
   * blank name give nothing.
   */
  function ParseFundNameFromProfileJs(body: string): (r: Option<string>)
    ensures r.Some? ==> r.value != [] && IsTrimmed(r.value, false) && '"' !in r.value
    ensures r.Some? ==> Contains(body, NameMarker)
  {
    match FindFrom(body, NameMarker, 0)
    case None => None
    case Some(start) =>
      var tail := body[start + |NameMarker|..];
      match IndexOf(tail, '"')
      case None => None
      case Some(end) =>
        var name := Trim(tail[..end]);
        TrimShape(tail[..end], false);
        QuoteFreeSlice(tail[..end], name);
        if name == [] then None else Some(name)
  }

  /** A slice of quote-free text is quote-free. */
  lemma QuoteFreeSlice(s: string, t: string)
    requires '"' !in s
    requires exists a, b :: 0 <= a <= b <= |s| && t == s[a..b]
    ensures '"' !in t
  {
    var a, b :| 0 <= a <= b <= |s| && t == s[a..b];
    forall i | 0 <= i < |t| ensures t[i] != '"' { assert t[i] == s[a + i]; }
  }

  /** A script with a quote-free prefix, the marker, a quote-free name and a closing quote yields the trimmed name. */
  lemma {:induction false} ProfileNameRoundTrip(prefix: string, name: string, rest: string)
    requires '"' !in prefix && '"' !in name
    ensures ParseFundNameFromProfileJs(prefix + NameMarker + name + "\"" + rest)
            == if Trim(name) == [] then None else Some(Trim(name))
  {
    var body := prefix + NameMarker + name + "\"" + rest;
    var m := |NameMarker|;
    assert m == 15 && NameMarker[14] == '"';
    assert OccursAt(body, NameMarker, |prefix|) by {
      assert body[|prefix|..|prefix| + m] == NameMarker;
    }
    var start := FindFrom(body, NameMarker, 0).value;
    assert start == |prefix|;
    var tail := body[start + m..];
    assert tail == name + "\"" + rest;
    assert tail[|name|] == '"';
    assert IndexOf(tail, '"') == Some(|name|) by {
      var k := IndexOf(tail, '"').value;
    }
    assert tail[..|name|] == name;
  }

  /**
   * The test script `/*基金或股票信息*/var fS_name = "华安德国(DAX)联接(QDII)A";var fS_code = "000614";`
   * (written below around the marker constant) gives that name.
   */
  lemma ProfileNameExample(body: string)
    requires body == "/*基金或股票信息*/" + NameMarker + "华安德国(DAX)联接(QDII)A" + "\";var fS_code = \"000614\";"
    ensures ParseFundNameFromProfileJs(body) == Some("华安德国(DAX)联接(QDII)A")
  {
    var prefix := "/*基金或股票信息*/";
    var name := "华安德国(DAX)联接(QDII)A";
    var rest := ";var fS_code = \"000614\";";
    assert "\"" + rest == "\";var fS_code = \"000614\";";
    assert body == prefix + NameMarker + name + "\"" + rest;
    QuoteFreeExamples(prefix, name);
    ExampleNameTrimmed(name);
    ProfileNameRoundTrip(prefix, name, rest);
  }

  lemma QuoteFreeExamples(prefix: string, name: string)
    requires prefix == "/*基金或股票信息*/" && name == "华安德国(DAX)联接(QDII)A"
    ensures '"' !in prefix && '"' !in name
  {
  }

  lemma ExampleNameTrimmed(name: string)
    requires name == "华安德国(DAX)联接(QDII)A"
    ensures Trim(name) == name
  {
    assert IsTrimmed(name, false) by {
      assert name[0] == '华' && name[|name| - 1] == 'A';
    }
    TrimOfTrimmed(name, false);
  }

  // ---------------------------------------------------------------------
  // Quotes
  // ---------------------------------------------------------------------

  /**
   * `quote_from_nav`: open is the given opening value or the NAV itself,
   * high and low are the larger and smaller of open and NAV, close and
   * adjusted close are the NAV, and volume is zero. `ymd` formats a day as
   * %Y%m%d for the id.
   */
  function QuoteFromNav(symbol: string, t: Timestamp, nav: real, maybeOpen: Option<real>,
                        currency: string, ymd: Day -> string): (q: Quote)
    ensures HasConsistentRange(q)
    ensures q.open == (if maybeOpen.Some? then maybeOpen.value else nav)
    ensures (q.high == q.open || q.high == q.close) && (q.low == q.open || q.low == q.close)
    ensures q.close == nav && q.adjclose == nav && q.volume == 0.0
    ensures q.dataSource == TiantianFund && q.timestamp == t && q.symbol == symbol && q.currency == currency
    ensures q.id == ymd(DayOf(t)) + "_" + symbol
  {
    var open := if maybeOpen.Some? then maybeOpen.value else nav;
    Quote(ymd(DayOf(t)) + "_" + symbol, TiantianFund, t, symbol,
          open, if open >= nav then open else nav, if open <= nav then open else nav,
          nav, nav, 0.0, currency)
  }

  /** Without a separate opening value the quote is flat: every price is the NAV. */
  lemma NavOnlyQuoteIsFlat(symbol: string, t: Timestamp, nav: real, currency: string, ymd: Day -> string)
    ensures var q := QuoteFromNav(symbol, t, nav, None, currency, ymd);
            q.open == q.high == q.low == q.close == nav
  {
  }

  /** The fields of the latest-value response the provider reads (missing fields decode as ""). */
  datatype LatestResponse = LatestResponse(
    fundcode: string, name: string, jzrq: string, dwjz: string, gsz: string, gztime: string)

  /** The parsers the latest-value path depends on. */
  datatype LatestParsers = LatestParsers(
    decode: string -> Result<LatestResponse, string>,
    decimal: string -> Option<real>,
    dateTimeSeconds: string -> Option<Timestamp>,
    dateTimeMinutes: string -> Option<Timestamp>,
    date: string -> Option<Day>)

  /**
   * `parse_latest_timestamp`: the estimate time with seconds, else without,
   * else midnight UTC of the NAV date, else the clock reading `now`.
   */
  function ParseLatestTimestamp(gztime: string, jzrq: string, p: LatestParsers, now: Timestamp): (t: Timestamp)
    ensures p.dateTimeSeconds(gztime).Some? ==> t == p.dateTimeSeconds(gztime).value
    ensures p.dateTimeSeconds(gztime).None? && p.dateTimeMinutes(gztime).Some? ==> t == p.dateTimeMinutes(gztime).value
    ensures p.dateTimeSeconds(gztime).None? && p.dateTimeMinutes(gztime).None? && p.date(jzrq).Some? ==>
              DayOf(t) == p.date(jzrq).value && t % MillisPerDay == 0
    ensures p.dateTimeSeconds(gztime).None? && p.dateTimeMinutes(gztime).None? && p.date(jzrq).None? ==> t == now
  {
    match p.dateTimeSeconds(gztime)
    case Some(t) => t
    case None =>
      match p.dateTimeMinutes(gztime)
      case Some(t) => t
      case None =>
        match p.date(jzrq)
        case Some(d) => AtHour(d, 0)
        case None => now
  }

  /**
   * `parse_latest_quote_fields`: (close, open, time) from the latest-value
   * JSON. Blank JSON, another fund's record or no usable value is `None`;
   * undecodable JSON is a parsing error.
   */
  function ParseLatestQuoteFields(json: string, fundCode: string, p: LatestParsers, now: Timestamp)
    : (r: Result<Option<(real, Option<real>, Timestamp)>, MarketDataError>)
    ensures Trim(json) == [] ==> r == Ok(None)
    ensures Trim(json) != [] && p.decode(json).Err? ==> r == Err(ParsingError(p.decode(json).error))
    ensures r.Err? ==> r.error.ParsingError?
    ensures r.Ok? && r.value.Some? ==>
              Trim(json) != [] && p.decode(json).Ok? && p.decode(json).value.fundcode == fundCode
              && (var latest := p.decode(json).value;
                  var gsz := ParseDecimal(latest.gsz, p.decimal);
                  var dwjz := ParseDecimal(latest.dwjz, p.decimal);
                  (gsz.Some? ==> r.value.value.0 == gsz.value)
                  && (gsz.None? ==> dwjz.Some? && r.value.value.0 == dwjz.value)
                  && r.value.value.1 == dwjz)
  {
    if Trim(json) == [] then Ok(None)
    else
      match p.decode(json)
      case Err(e) => Err(ParsingError(e))
      case Ok(latest) =>
        if latest.fundcode != fundCode then Ok(None)
        else
          var close := match ParseDecimal(latest.gsz, p.decimal)
                       case Some(v) => Some(v)
                       case None => ParseDecimal(latest.dwjz, p.decimal);
          match close
          case None => Ok(None)
          case Some(c) =>
            Ok(Some((c, ParseDecimal(latest.dwjz, p.decimal), ParseLatestTimestamp(latest.gztime, latest.jzrq, p, now))))
  }

  /**
   * A decoded record for the requested fund has fields exactly when its
   * estimate or its NAV parses; a record for another fund never has.
   */
  lemma LatestFieldsPresence(json: string, fundCode: string, p: LatestParsers, now: Timestamp)
    requires Trim(json) != [] && p.decode(json).Ok?
    ensures var latest := p.decode(json).value;
            var r := ParseLatestQuoteFields(json, fundCode, p, now);
            r.Ok?
            && (r.value.Some? <==> latest.fundcode == fundCode
                                   && (ParseDecimal(latest.gsz, p.decimal).Some? || ParseDecimal(latest.dwjz, p.decimal).Some?))
  {
  }

  /** Blank JSON is no data (the provider's own test). */
  lemma EmptyLatestJsonExample(p: LatestParsers, now: Timestamp)
    ensures ParseLatestQuoteFields("", "164906", p, now) == Ok(None)
  {
  }

  /**
   * The test record for fund 000083 (NAV "5.1210", estimate "5.1266"):
   * close is the estimate, open the NAV; asked for fund 006105 it is no data.
   */
  lemma LatestFieldsExample(json: string, p: LatestParsers, now: Timestamp)
    requires Trim(json) != []
    requires p.decode(json) == Ok(LatestResponse("000083", "", "2026-02-06", "5.1210", "5.1266", "2026-02-09 15:00"))
    requires p.decimal("5.1266") == Some(5.1266) && p.decimal("5.1210") == Some(5.1210)
    ensures var r := ParseLatestQuoteFields(json, "000083", p, now);
            r.Ok? && r.value.Some? && r.value.value.0 == 5.1266 && r.value.value.1 == Some(5.1210)
    ensures ParseLatestQuoteFields(json, "006105", p, now) == Ok(None)
  {
    TrimOfTrimmed("5.1266", false);
    TrimOfTrimmed("5.1210", false);
  }

  /**
   * `parse_fund_name_fields`: the trimmed name of the latest-value record
   * for this fund; blank JSON, another fund or a blank name give nothing.
   */
  function ParseFundNameFields(json: string, fundCode: string, decode: string -> Result<LatestResponse, string>)
    : (r: Result<Option<string>, MarketDataError>)
    ensures Trim(json) == [] ==> r == Ok(None)
    ensures Trim(json) != [] && decode(json).Err? ==> r == Err(ParsingError(decode(json).error))
    ensures r.Ok? && r.value.Some? ==>
              decode(json).Ok? && decode(json).value.fundcode == fundCode
              && r.value.value == Trim(decode(json).value.name) && r.value.value != []
  {
    if Trim(json) == [] then Ok(None)
    else
      match decode(json)
      case Err(e) => Err(ParsingError(e))
      case Ok(latest) =>
        if latest.fundcode != fundCode then Ok(None)
        else
          var name := Trim(latest.name);
          if name == [] then Ok(None) else Ok(Some(name))
  }

  // ---------------------------------------------------------------------
  // Paged history
  // ---------------------------------------------------------------------

  /** One row of the NAV history: a date and a NAV, both as text. */
  datatype HistoryItem = HistoryItem(date: string, nav: string)

  /** One decoded page of the history endpoint. */
  datatype HistoryPayload = HistoryPayload(
    errCode: Option<int>, errMsg: Option<string>, totalCount: Option<nat>, items: Option<seq<HistoryItem>>)

  /** What every history quote of one request shares. */
  datatype HistoryContext = HistoryContext(
    symbol: string, currency: string,
    date: string -> Option<Day>, decimal: string -> Option<real>, ymd: Day -> string)

  /** The quote for one row, or nothing when its date or NAV does not parse. */
  function ItemQuote(item: HistoryItem, c: HistoryContext): (r: Option<Quote>)
    ensures r.Some? <==> c.date(item.date).Some? && ParseDecimal(item.nav, c.decimal).Some?
    ensures r.Some? ==> HasConsistentRange(r.value) && r.value.symbol == c.symbol && r.value.currency == c.currency
                        && r.value.dataSource == TiantianFund && DayOf(r.value.timestamp) == c.date(item.date).value
  {
    match c.date(item.date)
    case None => None
    case Some(d) =>
      match ParseDecimal(item.nav, c.decimal)
      case None => None
      case Some(nav) => Some(QuoteFromNav(c.symbol, AtHour(d, 0), nav, Some(nav), c.currency, c.ymd))
  }

  /** The quotes of the parseable rows of one page, in page order. */
  function PageQuotes(items: seq<HistoryItem>, c: HistoryContext): seq<Quote>
    decreases |items|
  {
    if items == [] then []
    else PageQuotes(items[..|items| - 1], c)
         + (match ItemQuote(items[|items| - 1], c) case Some(q) => [q] case None => [])
  }

  /** A quote of this request: its symbol, currency, source and a consistent range. */
  predicate WellFormedFor(q: Quote, c: HistoryContext) {
    HasConsistentRange(q) && q.symbol == c.symbol && q.currency == c.currency && q.dataSource == TiantianFund
  }

  lemma {:induction false} PageQuotesWellFormed(items: seq<HistoryItem>, c: HistoryContext)
    ensures |PageQuotes(items, c)| <= |items|
    ensures forall q :: q in PageQuotes(items, c) ==> WellFormedFor(q, c)
    decreases |items|
  {
    if items != [] {
      PageQuotesWellFormed(items[..|items| - 1], c);
    }
  }

  function HistoryItems(p: HistoryPayload): seq<HistoryItem> {
    if p.items.Some? then p.items.value else []
  }

  /** The provider's error for a page whose error code is set and not zero. */
  function PageError(p: HistoryPayload): MarketDataError {
    ProviderError(if p.errMsg.Some? then p.errMsg.value else "Unknown Tiantian fund history error")
  }

  /** Whether the loop stops after this full page: it was short, or the total count is reached. */
  predicate LastPage(p: HistoryPayload, pageIndex: nat) {
    |HistoryItems(p)| < HistoryPageSize || (p.totalCount.Some? && pageIndex * HistoryPageSize >= p.totalCount.value)
  }

  /**
   * The quotes of pages `pageIndex` to the last one read, in page order.
   * `fetch(k)` is page k of the endpoint, or the transport, status or
   * decoding error the request met.
   */
  function HistoryFrom(fetch: nat -> Result<HistoryPayload, MarketDataError>, pageIndex: nat, c: HistoryContext)
    : Result<seq<Quote>, MarketDataError>
    decreases MaxHistoryPages + 1 - pageIndex
  {
    if pageIndex > MaxHistoryPages then Ok([])
    else
      match fetch(pageIndex)
      case Err(e) => Err(e)
      case Ok(p) =>
        if (if p.errCode.Some? then p.errCode.value else 0) != 0 then Err(PageError(p))
        else if HistoryItems(p) == [] then Ok([])
        else
          var qs := PageQuotes(HistoryItems(p), c);
          if LastPage(p, pageIndex) then Ok(qs)
          else
            match HistoryFrom(fetch, pageIndex + 1, c)
            case Ok(rest) => Ok(qs + rest)
            case Err(e) => Err(e)
  }

  /** Only pages 1 to 60 are ever requested: two endpoints that agree on them give the same history. */
  lemma {:induction false} HistoryReadsAtMostMaxPages(
    fetch: nat -> Result<HistoryPayload, MarketDataError>,
    fetch': nat -> Result<HistoryPayload, MarketDataError>,
    pageIndex: nat, c: HistoryContext)
    requires forall k :: pageIndex <= k <= MaxHistoryPages ==> fetch(k) == fetch'(k)
    ensures HistoryFrom(fetch, pageIndex, c) == HistoryFrom(fetch', pageIndex, c)
    decreases MaxHistoryPages + 1 - pageIndex
  {
    if pageIndex <= MaxHistoryPages {
      HistoryReadsAtMostMaxPages(fetch, fetch', pageIndex + 1, c);
    }
  }

  /** Every history quote belongs to the request. */
  lemma {:induction false} HistoryWellFormed(
    fetch: nat -> Result<HistoryPayload, MarketDataError>, pageIndex: nat, c: HistoryContext)
    requires HistoryFrom(fetch, pageIndex, c).Ok?
    ensures forall q :: q in HistoryFrom(fetch, pageIndex, c).value ==> WellFormedFor(q, c)
    decreases MaxHistoryPages + 1 - pageIndex
  {
    if pageIndex <= MaxHistoryPages && fetch(pageIndex).Ok? {
      var p := fetch(pageIndex).value;
      PageQuotesWellFormed(HistoryItems(p), c);
      if (if p.errCode.Some? then p.errCode.value else 0) == 0 && HistoryItems(p) != [] && !LastPage(p, pageIndex) {
        HistoryWellFormed(fetch, pageIndex + 1, c);
      }
    }
  }

  /** `quotes` followed by the history, or the history's error. */
  function Prefixed(quotes: seq<Quote>, h: Result<seq<Quote>, MarketDataError>): Result<seq<Quote>, MarketDataError> {
    match h
    case Ok(rest) => Ok(quotes + rest)
    case Err(e) => Err(e)
  }

  /**
   * `get_historical_quotes`: an unsupported symbol is a provider error, an
   * empty window is no quotes; otherwise pages 1, 2, … are read until an
   * empty, short or final page (at most 60), and the quotes collected are
   * returned sorted by time, or NoData if there are none.
   */
  method GetHistoricalQuotes(
    symbol: string, start: Timestamp, end: Timestamp, fallbackCurrency: string,
    fetch: nat -> Result<HistoryPayload, MarketDataError>,
    date: string -> Option<Day>, decimal: string -> Option<real>, ymd: Day -> string)
    returns (r: Result<seq<Quote>, MarketDataError>)
    ensures ParseFundSymbol(symbol).None? ==> r.Err? && r.error.ProviderError?
    ensures ParseFundSymbol(symbol).Some? && start >= end ==> r == Ok([])
    ensures ParseFundSymbol(symbol).Some? && start < end ==>
              var c := HistoryContext(ParseFundSymbol(symbol).value.0, FallbackCurrency(fallbackCurrency), date, decimal, ymd);
              var h := HistoryFrom(fetch, 1, c);
              (h.Err? ==> r == h)
              && (h.Ok? && h.value == [] ==> r == Err(NoData))
              && (h.Ok? && h.value != [] ==>
                    r.Ok? && SortedByTimestamp(r.value) && multiset(r.value) == multiset(h.value))
  {
    var parsed := ParseFundSymbol(symbol);
    if parsed.None? {
      return Err(ProviderError("TIANTIAN_FUND only supports 6-digit FUND symbols, got: " + symbol));
    }
    if start >= end {
      return Ok([]);
    }
    var c := HistoryContext(parsed.value.0, FallbackCurrency(fallbackCurrency), date, decimal, ymd);
    var h := CollectHistory(fetch, c);
    if h.Err? {
      return Err(h.error);
    }
    var quotes := h.value;
    if quotes == [] {
      return Err(NoData);
    }
    var a := new Quote[|quotes|](i requires 0 <= i < |quotes| => quotes[i]);
    assert a[..] == quotes;
    SortByTimestamp(a);
    return Ok(a[..]);
  }

  /** The `while page_index <= MAX_HISTORY_PAGES` loop: reads pages until one ends the history. */
  method CollectHistory(fetch: nat -> Result<HistoryPayload, MarketDataError>, c: HistoryContext)
    returns (r: Result<seq<Quote>, MarketDataError>)
    ensures r == HistoryFrom(fetch, 1, c)
  {
    var pageIndex: nat := 1;
    var quotes: seq<Quote> := [];
    match HistoryFrom(fetch, 1, c) {
      case Ok(rest) => assert quotes + rest == rest;
      case Err(_) =>
    }
    while pageIndex <= MaxHistoryPages
      invariant 1 <= pageIndex <= MaxHistoryPages + 1
      invariant HistoryFrom(fetch, 1, c) == Prefixed(quotes, HistoryFrom(fetch, pageIndex, c))
      decreases MaxHistoryPages + 1 - pageIndex
    {
      match fetch(pageIndex)
      case Err(e) =>
        return Err(e);
      case Ok(payload) =>
        if (if payload.errCode.Some? then payload.errCode.value else 0) != 0 {
          return Err(PageError(payload));
        }
        var items := HistoryItems(payload);
        if items == [] {
          assert quotes + [] == quotes;
          return Ok(quotes);
        }
        var pageQuotes := CollectPage(items, c);
        if LastPage(payload, pageIndex) {
          return Ok(quotes + pageQuotes);
        }
        PrefixedAssociates(quotes, pageQuotes, HistoryFrom(fetch, pageIndex + 1, c));
        quotes := quotes + pageQuotes;
        pageIndex := pageIndex + 1;
    }
    assert quotes + [] == quotes;
    return Ok(quotes);
  }

  lemma PrefixedAssociates(a: seq<Quote>, b: seq<Quote>, h: Result<seq<Quote>, MarketDataError>)
    ensures Prefixed(a, Prefixed(b, h)) == Prefixed(a + b, h)
  {
    if h.Ok? { assert a + (b + h.value) == (a + b) + h.value; }
  }

  /** The loop over one page's rows, skipping those that do not parse. */
  method CollectPage(items: seq<HistoryItem>, c: HistoryContext) returns (qs: seq<Quote>)
    ensures qs == PageQuotes(items, c)
  {
    qs := [];
    for i := 0 to |items|
      invariant qs == PageQuotes(items[..i], c)
    {
      assert items[..i + 1][..i] == items[..i];
      match ItemQuote(items[i], c)
      case Some(q) => qs := qs + [q];
      case None =>
    }
    assert items[..|items|] == items;
  }

  /**
   * `get_historical_quotes_bulk`: every symbol `ParseFundSymbol` refuses is
   * a failure; each accepted one is fetched through `history`, and every
   * error, NoData included, is a failure.
   */
  method GetHistoricalQuotesBulk(
    requests: seq<Request>, start: Timestamp, end: Timestamp,
    history: Request -> Result<seq<Quote>, MarketDataError>)
    returns (quotes: seq<Quote>, failed: seq<Request>)
    ensures requests == [] || start >= end ==> quotes == [] && failed == []
    ensures requests != [] && start < end ==>
              forall x :: x in failed <==> x in requests && (ParseFundSymbol(x.0).None? || history(x).Err?)
    ensures requests != [] && start < end ==>
              quotes == FetchedQuotes(Supported(requests, AcceptedSymbol), history)
  {
    quotes, failed := FetchHistoryBulk(requests, start, end, AcceptedSymbol, history, true);
    if requests != [] && start < end {
      forall x ensures x in failed <==> x in requests && (ParseFundSymbol(x.0).None? || history(x).Err?) {
        BulkFailures(requests, AcceptedSymbol, history, true, x);
      }
    }
  }

  /** The partition test of the bulk fetch. */
  predicate AcceptedSymbol(symbol: string) {
    ParseFundSymbol(symbol).Some?
  }
}
