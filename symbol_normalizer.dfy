/**
 * Symbol normalisation and data-source inference for market-data symbols
 * (src-core/src/market_data/symbol_normalizer.rs). Upper-casing is ASCII-only.
 */
module SymbolNormalizer {
  import opened Wrappers
  import opened Strings

  datatype NormalizationOptions = NormalizationOptions(treatBareSixDigitAsFund: bool)

  /** The two providers a symbol can be routed to by its shape alone. */
  datatype DataSource = EastmoneyCn | TiantianFund

  const CashPrefix: string := "$CASH-"

  /** `symbol.trim().to_uppercase()`. */
  function Canonical(symbol: string): string {
    ToUpper(Trim(symbol))
  }

  /** Trimmed and free of lower-case ASCII letters. */
  predicate IsCanonical(s: string) {
    IsTrimmed(s, false) && forall i :: 0 <= i < |s| ==> !IsAsciiLower(s[i])
  }

  lemma CanonicalShape(symbol: string)
    ensures IsCanonical(Canonical(symbol))
  {
    var t := Trim(symbol);
    TrimShape(symbol, false);
    var n := ToUpper(t);
    if |n| > 0 {
      assert n[0] == UpperChar(t[0]) && n[|n| - 1] == UpperChar(t[|t| - 1]);
    }
  }

  lemma CanonicalOfCanonical(s: string)
    requires IsCanonical(s)
    ensures Canonical(s) == s
  {
    TrimOfTrimmed(s, false);
    assert ToUpper(s) == s;
  }

  /** Number of leading '0' characters (`trim_start_matches('0')`). */
  function LeadingZeroCount(s: string): (k: nat)
    ensures k <= |s|
    ensures forall i :: 0 <= i < k ==> s[i] == '0'
    ensures k < |s| ==> s[k] != '0'
    decreases |s|
  {
    if s != [] && s[0] == '0' then 1 + LeadingZeroCount(s[1..]) else 0
  }

  /** The value of a digit string read after stripping its leading zeros; the empty rest reads 0. */
  function StrippedValue(code: string): (n: nat)
    requires AllAsciiDigits(code)
    ensures n == DecimalValue(code)
  {
    var k := LeadingZeroCount(code);
    var stripped := code[k..];
    assert code == Zeros(k) + stripped;
    LeadingZerosValue(k, stripped);
    if stripped == [] then 0 else DecimalValue(stripped)
  }

  /** `format!("{n:04}")` below 10000, `format!("{n:05}")` from there on. */
  function HkPadded(n: nat): string {
    if n < 10000 then ZeroPadded(n, 4) else ZeroPadded(n, 5)
  }

  /**
   * A Hong Kong code of one to five digits, re-padded to four digits when
   * its value is below 10000 and to five otherwise; anything else is refused.
   */
  function NormalizeHkCode(code: string): (r: Option<string>)
    ensures r.Some? <==> 1 <= |code| <= 5 && AllAsciiDigits(code)
    ensures r.Some? ==> AllAsciiDigits(r.value) && DecimalValue(r.value) == DecimalValue(code)
    ensures r.Some? ==> |r.value| == if DecimalValue(code) < 10000 then 4 else 5
  {
    if code == [] || |code| > 5 || !AllAsciiDigits(code) then None
    else
      var numeric := StrippedValue(code);
      DecimalValueBound(code);
      HkPaddedFacts(numeric, |code|);
      Some(HkPadded(numeric))
  }

  lemma HkPaddedFacts(n: nat, digits: nat)
    requires digits <= 5 && n < Pow10(digits)
    ensures AllAsciiDigits(HkPadded(n)) && DecimalValue(HkPadded(n)) == n
    ensures |HkPadded(n)| == if n < 10000 then 4 else 5
  {
    assert Pow10(4) == 10000 && Pow10(5) == 100000;
    assert Pow10(digits) <= 100000 by {
      if digits < 5 { assert Pow10(digits) <= Pow10(4); }
    }
    if n < 10000 {
      DecimalStringLength(n, 4);
      ZeroPaddedFacts(n, 4);
    } else {
      DecimalStringLength(n, 5);
      DecimalStringLength(n, 4);
      ZeroPaddedFacts(n, 5);
    }
  }

  /** A normalised Hong Kong code normalises to itself. */
  lemma HkCodeIdempotent(code: string)
    requires NormalizeHkCode(code).Some?
    ensures NormalizeHkCode(NormalizeHkCode(code).value) == NormalizeHkCode(code)
  {
    var h := NormalizeHkCode(code).value;
    DecimalValueBound(code);
    assert Pow10(5) == 100000;
    assert Pow10(|code|) <= 100000 by {
      if |code| < 5 { assert Pow10(|code|) <= Pow10(4); }
    }
    assert StrippedValue(h) == StrippedValue(code);
  }

  /** `format!("{code}.{market}")`. */
  function WithMarket(code: string, market: string): string {
    code + "." + market
  }

  /** The suffix a recognised market is rewritten to: SS becomes SH. */
  function CanonicalMarket(market: string): string {
    if market == "SS" then "SH" else market
  }

  /** The market-suffix rules; `None` falls back to the upper-cased input. */
  function MarketSymbol(code: string, market: string): Option<string> {
    if market == "US" then
      if code != [] then Some(code) else None
    else if market == "SS" || market == "SH" || market == "SZ" then
      if IsSixDigitCode(code) then Some(WithMarket(code, CanonicalMarket(market))) else None
    else if market == "HK" then
      match NormalizeHkCode(code)
      case Some(c) => Some(WithMarket(c, "HK"))
      case None => None
    else if market == "FUND" then
      if IsSixDigitCode(code) then Some(WithMarket(code, "FUND")) else None
    else None
  }

  /** `normalize_panorama_symbol`. */
  function NormalizePanoramaSymbol(symbol: string, options: NormalizationOptions): string {
    var n := Canonical(symbol);
    if n == [] then n
    else if StartsWith(n, CashPrefix) || '=' in n then n
    else
      match SplitOnce(n, '.')
      case Some((code, market)) =>
        (match MarketSymbol(Trim(code), Trim(market))
         case Some(s) => s
         case None => n)
      case None =>
        if options.treatBareSixDigitAsFund && IsSixDigitCode(n) then WithMarket(n, "FUND") else n
  }

  /** `infer_panorama_data_source`; the market part is compared untrimmed. */
  function InferPanoramaDataSource(symbol: string): Option<DataSource> {
    var n := Canonical(symbol);
    if n == [] || StartsWith(n, CashPrefix) || '=' in n then None
    else
      match SplitOnce(n, '.')
      case None => None
      case Some((code, market)) =>
        if !IsSixDigitCode(code) then None
        else if market == "SH" || market == "SS" || market == "SZ" then Some(EastmoneyCn)
        else if market == "FUND" then Some(TiantianFund)
        else None
  }

  /** Six digits, a dot, then exactly `market`. */
  predicate CodeWithMarket(n: string, market: string) {
    |n| == 7 + |market| && IsSixDigitCode(n[..6]) && n[6] == '.' && n[7..] == market
  }

  // ---------------------------------------------------------------------
  // Properties
  // ---------------------------------------------------------------------

  predicate IsUpperWord(m: string) {
    |m| >= 1 && forall i :: 0 <= i < |m| ==> IsAsciiUpper(m[i])
  }

  lemma DigitsFreeOf(s: string, c: char)
    requires AllAsciiDigits(s) && !IsAsciiDigit(c)
    ensures c !in s
  {
    forall i | 0 <= i < |s| ensures s[i] != c { assert IsAsciiDigit(s[i]); }
  }

  /** Digits, a dot and an upper-case market word: canonical, and split back apart at the dot. */
  lemma WithMarketFacts(d: string, m: string)
    requires |d| >= 1 && AllAsciiDigits(d) && IsUpperWord(m)
    ensures var r := WithMarket(d, m);
            IsCanonical(r) && r != [] && !StartsWith(r, CashPrefix) && '=' !in r
            && SplitOnce(r, '.') == Some((d, m)) && Trim(d) == d && Trim(m) == m
  {
    var r := WithMarket(d, m);
    assert IsAsciiDigit(d[0]) && IsAsciiDigit(d[|d| - 1]) && IsAsciiUpper(m[|m| - 1]);
    forall i | 0 <= i < |r| ensures !IsAsciiLower(r[i]) && r[i] != '=' {
      if i < |d| { assert r[i] == d[i] && IsAsciiDigit(d[i]); }
      else if i > |d| { assert r[i] == m[i - |d| - 1] && IsAsciiUpper(m[i - |d| - 1]); }
    }
    assert r[0] == d[0] && r[|r| - 1] == m[|m| - 1];
    DigitsFreeOf(d, '.');
    SplitOnceOfJoin(d, '.', m);
    assert IsAsciiUpper(m[0]);
    TrimOfTrimmed(d, false);
    TrimOfTrimmed(m, false);
  }

  /**
   * Every recognised suffix other than US yields digits, a dot and an
   * upper-case market word, and that result is a fixed point of the rules.
   */
  lemma MarketSymbolShape(code: string, market: string)
    requires market != "US" && MarketSymbol(code, market).Some?
    ensures var d := if market == "HK" then NormalizeHkCode(code).value else code;
            var m := CanonicalMarket(market);
            |d| >= 1 && AllAsciiDigits(d) && IsUpperWord(m)
            && MarketSymbol(code, market).value == WithMarket(d, m)
            && MarketSymbol(d, m) == MarketSymbol(code, market)
  {
    var m := CanonicalMarket(market);
    assert m in ["SH", "SZ", "HK", "FUND"];
    assert IsUpperWord(m) by {
      if m == "SH" {} else if m == "SZ" {} else if m == "HK" {} else {}
    }
    if market == "HK" {
      HkCodeIdempotent(code);
    }
  }

  /** Splitting a six-digit code and its market at the first dot recovers both. */
  lemma CodeWithMarketIsWithMarket(n: string, market: string)
    requires CodeWithMarket(n, market)
    ensures n == WithMarket(n[..6], market)
  {
  }

  /**
   * The inferred source depends only on the exact shape of the trimmed,
   * upper-cased symbol: the east-money source exactly for a six-digit code
   * with SH, SS or SZ, the fund source exactly for one with FUND.
   */
  lemma InferDataSourceExact(symbol: string)
    ensures var n := Canonical(symbol);
            InferPanoramaDataSource(symbol) == Some(EastmoneyCn)
            <==> CodeWithMarket(n, "SH") || CodeWithMarket(n, "SS") || CodeWithMarket(n, "SZ")
    ensures var n := Canonical(symbol);
            InferPanoramaDataSource(symbol) == Some(TiantianFund) <==> CodeWithMarket(n, "FUND")
  {
    var n := Canonical(symbol);
    forall m | m in ["SH", "SS", "SZ", "FUND"] && CodeWithMarket(n, m)
      ensures InferPanoramaDataSource(symbol) == (if m == "FUND" then Some(TiantianFund) else Some(EastmoneyCn))
    {
      InferOfCodeWithMarket(symbol, m);
    }
    if InferPanoramaDataSource(symbol).Some? {
      InferredHasShape(symbol);
    }
  }

  /** A canonical symbol of six digits and a known market infers that market's source. */
  lemma InferOfCodeWithMarket(symbol: string, m: string)
    requires (m == "SH" || m == "SS" || m == "SZ" || m == "FUND") && CodeWithMarket(Canonical(symbol), m)
    ensures InferPanoramaDataSource(symbol) == (if m == "FUND" then Some(TiantianFund) else Some(EastmoneyCn))
  {
    var n := Canonical(symbol);
    CodeWithMarketIsWithMarket(n, m);
    assert IsUpperWord(m) by {
      if m == "SH" {} else if m == "SS" {} else if m == "SZ" {} else {}
    }
    WithMarketFacts(n[..6], m);
  }

  /** A symbol that infers a source is six digits, a dot and the market that names the source. */
  lemma InferredHasShape(symbol: string)
    requires InferPanoramaDataSource(symbol).Some?
    ensures var n := Canonical(symbol);
            |n| >= 7 && CodeWithMarket(n, n[7..])
            && (InferPanoramaDataSource(symbol) == Some(TiantianFund) <==> n[7..] == "FUND")
            && (n[7..] == "SH" || n[7..] == "SS" || n[7..] == "SZ" || n[7..] == "FUND")
  {
    var n := Canonical(symbol);
    var (code, market) := SplitOnce(n, '.').value;
    assert n == code + "." + market;
    assert n[..6] == code && n[7..] == market;
  }

  /** The fund hint changes the result exactly for a bare six-digit symbol, which gains ".FUND". */
  lemma FundHintOnlyForBareCodes(symbol: string)
    ensures var n := Canonical(symbol);
            NormalizePanoramaSymbol(symbol, NormalizationOptions(true))
              != NormalizePanoramaSymbol(symbol, NormalizationOptions(false))
            <==> IsSixDigitCode(n) && '.' !in n
    ensures var n := Canonical(symbol);
            IsSixDigitCode(n) && '.' !in n ==>
              NormalizePanoramaSymbol(symbol, NormalizationOptions(true)) == WithMarket(n, "FUND")
              && NormalizePanoramaSymbol(symbol, NormalizationOptions(false)) == n
  {
    var n := Canonical(symbol);
    if IsSixDigitCode(n) {
      assert IsAsciiDigit(n[0]) && n[0] != '$';
      DigitsFreeOf(n, '=');
    }
  }

  /** A part of a canonical symbol, trimmed, is canonical itself. */
  lemma TrimmedPartCanonical(n: string, a: nat, part: string)
    requires IsCanonical(n)
    requires a + |part| <= |n| && n[a..a + |part|] == part
    ensures IsCanonical(Trim(part))
  {
    TrimShape(part, false);
    var t := Trim(part);
    var x, y :| 0 <= x <= y <= |part| && t == part[x..y];
    forall i | 0 <= i < |t| ensures !IsAsciiLower(t[i]) {
      assert t[i] == n[a + x + i];
    }
  }

  /** The code and market of a canonical symbol split at its first dot. */
  lemma SplitParts(n: string, code: string, market: string)
    requires IsCanonical(n) && SplitOnce(n, '.') == Some((code, market))
    ensures IsCanonical(Trim(code)) && n == code + "." + market
  {
    assert n[..|code|] == code;
    TrimmedPartCanonical(n, 0, code);
  }

  /** The result is trimmed, has no lower-case letters, and is empty exactly for blank input. */
  lemma NormalizedIsCanonical(symbol: string, options: NormalizationOptions)
    ensures var r := NormalizePanoramaSymbol(symbol, options);
            IsCanonical(r) && (r == [] <==> Canonical(symbol) == [])
  {
    var n := Canonical(symbol);
    CanonicalShape(symbol);
    if n != [] && !(StartsWith(n, CashPrefix) || '=' in n) {
      match SplitOnce(n, '.')
      case Some((code, market)) =>
        SplitParts(n, code, market);
        var c, m := Trim(code), Trim(market);
        if MarketSymbol(c, m).Some? && m != "US" {
          MarketSymbolCanonical(c, m);
        }
      case None =>
        if options.treatBareSixDigitAsFund && IsSixDigitCode(n) {
          FundSymbolCanonical(n);
        }
    }
  }

  /** A symbol built for a market other than `US` is canonical and not empty. */
  lemma MarketSymbolCanonical(c: string, m: string)
    requires m != "US" && MarketSymbol(c, m).Some?
    ensures IsCanonical(MarketSymbol(c, m).value) && MarketSymbol(c, m).value != []
  {
    var d := if m == "HK" then NormalizeHkCode(c).value else c;
    MarketSymbolShape(c, m);
    WithMarketFacts(d, CanonicalMarket(m));
  }

  /** A bare six-digit code with `.FUND` appended is canonical and not empty. */
  lemma FundSymbolCanonical(n: string)
    requires IsSixDigitCode(n)
    ensures IsCanonical(WithMarket(n, "FUND")) && WithMarket(n, "FUND") != []
  {
    assert IsUpperWord("FUND");
    WithMarketFacts(n, "FUND");
  }

  /** Normalisation depends on the trimmed, upper-cased text only. */
  lemma NormalizeOfCanonical(symbol: string, options: NormalizationOptions)
    ensures NormalizePanoramaSymbol(Canonical(symbol), options) == NormalizePanoramaSymbol(symbol, options)
  {
    CanonicalShape(symbol);
    CanonicalOfCanonical(Canonical(symbol));
  }

  /** A bare code taken from before the first dot of a canonical symbol normalises to itself. */
  lemma UsCodeNormalizesToItself(n: string, code: string, options: NormalizationOptions)
    requires IsCanonical(n) && !StartsWith(n, CashPrefix) && '=' !in n
    requires |code| < |n| && n[..|code|] == code && '.' !in code
    requires Trim(code) != []
    requires !(options.treatBareSixDigitAsFund && IsSixDigitCode(Trim(code)))
    ensures NormalizePanoramaSymbol(Trim(code), options) == Trim(code)
  {
    var c := Trim(code);
    TrimmedPartCanonical(n, 0, code);
    CanonicalOfCanonical(c);
    assert code[0] == n[0];
    assert SkipSpaces(code, 0, false) == 0;
    var b := SkipSpacesBack(code, |code|, false);
    assert c == code[0..b];
    forall i | 0 <= i < |c| ensures c[i] != '.' && c[i] != '=' { assert c[i] == n[i]; }
    if |c| >= 6 {
      assert c[..6] == n[..6];
    }
  }

  /** A digits-dot-market result of the suffix rules normalises to itself. */
  lemma SuffixedNormalizesToItself(c: string, m: string, options: NormalizationOptions)
    requires m != "US" && MarketSymbol(c, m).Some?
    ensures NormalizePanoramaSymbol(MarketSymbol(c, m).value, options) == MarketSymbol(c, m).value
  {
    var d := if m == "HK" then NormalizeHkCode(c).value else c;
    MarketSymbolShape(c, m);
    WithMarketFacts(d, CanonicalMarket(m));
    CanonicalOfCanonical(WithMarket(d, CanonicalMarket(m)));
  }

  /** A bare six-digit code with ".FUND" appended normalises to itself. */
  lemma FundNormalizesToItself(n: string, options: NormalizationOptions)
    requires IsSixDigitCode(n)
    ensures NormalizePanoramaSymbol(WithMarket(n, "FUND"), options) == WithMarket(n, "FUND")
  {
    assert IsUpperWord("FUND");
    WithMarketFacts(n, "FUND");
    CanonicalOfCanonical(WithMarket(n, "FUND"));
    assert MarketSymbol(n, "FUND") == Some(WithMarket(n, "FUND"));
  }

  /**
   * Normalising twice gives what normalising once gives, except that with the
   * fund hint a bare six-digit result (a six-digit "<code>.US") gains ".FUND"
   * on the second pass.
   */
  lemma NormalizeIdempotent(symbol: string, options: NormalizationOptions)
    requires !(options.treatBareSixDigitAsFund && IsSixDigitCode(NormalizePanoramaSymbol(symbol, options)))
    ensures NormalizePanoramaSymbol(NormalizePanoramaSymbol(symbol, options), options)
            == NormalizePanoramaSymbol(symbol, options)
  {
    var n := Canonical(symbol);
    var r := NormalizePanoramaSymbol(symbol, options);
    CanonicalShape(symbol);
    if r == n {
      NormalizeOfCanonical(symbol, options);
    } else {
      match SplitOnce(n, '.')
      case Some((code, market)) =>
        SplitParts(n, code, market);
        var c, m := Trim(code), Trim(market);
        if m == "US" {
          UsCodeNormalizesToItself(n, code, options);
        } else {
          SuffixedNormalizesToItself(c, m, options);
        }
      case None =>
        FundNormalizesToItself(n, options);
    }
  }

  /** Normalising never changes a symbol's inferred data source when it has one. */
  lemma NormalizeKeepsDataSource(symbol: string, options: NormalizationOptions)
    requires InferPanoramaDataSource(symbol).Some?
    ensures InferPanoramaDataSource(NormalizePanoramaSymbol(symbol, options)) == InferPanoramaDataSource(symbol)
  {
    var n := Canonical(symbol);
    InferDataSourceExact(symbol);
    var m := n[7..];
    var code := n[..6];
    assert CodeWithMarket(n, m) && m in ["SH", "SS", "SZ", "FUND"];
    CodeWithMarketIsWithMarket(n, m);
    assert IsUpperWord(m) by {
      if m == "SH" {} else if m == "SS" {} else if m == "SZ" {} else {}
    }
    WithMarketFacts(code, m);
    MarketSymbolShape(code, m);
    var r := WithMarket(code, CanonicalMarket(m));
    assert NormalizePanoramaSymbol(symbol, options) == r;
    NormalizedDataSource(r, code, CanonicalMarket(m));
  }

  lemma NormalizedDataSource(r: string, code: string, m: string)
    requires IsSixDigitCode(code) && m in ["SH", "SZ", "FUND"] && r == WithMarket(code, m)
    ensures InferPanoramaDataSource(r) == if m == "FUND" then Some(TiantianFund) else Some(EastmoneyCn)
  {
    assert IsUpperWord(m) by {
      if m == "SH" {} else if m == "SZ" {} else {}
    }
    WithMarketFacts(code, m);
    CanonicalOfCanonical(r);
  }

  /** A symbol reading "<code>.<market>" after trimming and upper-casing goes through the suffix rules on its parts. */
  lemma NormalizeSuffixed(symbol: string, code: string, market: string, options: NormalizationOptions)
    requires Canonical(symbol) == code + "." + market
    requires code != [] && code[0] != '$' && '.' !in code && '=' !in code && '=' !in market
    requires IsTrimmed(code, false) && IsTrimmed(market, false)
    ensures NormalizePanoramaSymbol(symbol, options)
            == match MarketSymbol(code, market) case Some(s) => s case None => Canonical(symbol)
  {
    var n := Canonical(symbol);
    assert n[0] == code[0];
    assert !StartsWith(n, CashPrefix) by { assert CashPrefix[0] == '$'; }
    assert '=' !in n by {
      forall i | 0 <= i < |n| ensures n[i] != '=' {
        if i < |code| { assert n[i] == code[i]; } else if i > |code| { assert n[i] == market[i - |code| - 1]; }
      }
    }
    SplitOnceOfJoin(code, '.', market);
    assert SplitOnce(n, '.') == Some((code, market));
    TrimOfTrimmed(code, false);
    TrimOfTrimmed(market, false);
  }

  lemma CanonicalOfTrimmed(s: string)
    requires IsTrimmed(s, false)
    ensures Canonical(s) == ToUpper(s)
  {
    TrimOfTrimmed(s, false);
  }

  /** "aapl.us" normalises to "AAPL". */
  lemma UsSuffixExample()
    ensures NormalizePanoramaSymbol("aapl.us", NormalizationOptions(false)) == "AAPL"
  {
    CanonicalOfTrimmed("aapl.us");
    assert ToUpper("aapl.us") == "AAPL" + "." + "US";
    NormalizeSuffixed("aapl.us", "AAPL", "US", NormalizationOptions(false));
  }

  /** "600519.SS" normalises to "600519.SH". */
  lemma ShanghaiSuffixExample()
    ensures NormalizePanoramaSymbol("600519.SS", NormalizationOptions(false)) == "600519.SH"
  {
    assert IsUpperWord("SS");
    WithMarketFacts("600519", "SS");
    assert WithMarket("600519", "SS") == "600519.SS";
    CanonicalOfCanonical("600519.SS");
    NormalizeSuffixed("600519.SS", "600519", "SS", NormalizationOptions(false));
  }

  /** A Hong Kong symbol whose value is below 10000 becomes the four-digit code of that value. */
  lemma HkExample(code: string, padded: string)
    requires 1 <= |code| <= 5 && AllAsciiDigits(code)
    requires |padded| == 4 && AllAsciiDigits(padded) && DecimalValue(padded) == DecimalValue(code)
    ensures NormalizePanoramaSymbol(WithMarket(code, "HK"), NormalizationOptions(false)) == WithMarket(padded, "HK")
  {
    var s := WithMarket(code, "HK");
    assert IsUpperWord("HK");
    WithMarketFacts(code, "HK");
    CanonicalOfCanonical(s);
    DigitsFreeOf(code, '=');
    NormalizeSuffixed(s, code, "HK", NormalizationOptions(false));
    DecimalValueBound(padded);
    assert Pow10(4) == 10000;
    DecimalValueInjective(NormalizeHkCode(code).value, padded);
  }

  /** Digit strings of one length are equal when their values are. */
  lemma {:induction false} DecimalValueInjective(a: string, b: string)
    requires AllAsciiDigits(a) && AllAsciiDigits(b) && |a| == |b| && DecimalValue(a) == DecimalValue(b)
    ensures a == b
    decreases |a|
  {
    if a != [] {
      var k := |a| - 1;
      assert DigitValue(a[k]) == DecimalValue(a) % 10 && DigitValue(b[k]) == DecimalValue(b) % 10;
      DecimalValueInjective(a[..k], b[..k]);
      assert a == a[..k] + [a[k]] && b == b[..k] + [b[k]];
    }
  }

  /** "00700.HK" normalises to "0700.HK". */
  lemma HkTencentExample()
    ensures NormalizePanoramaSymbol("00700.HK", NormalizationOptions(false)) == "0700.HK"
  {
    assert WithMarket("00700", "HK") == "00700.HK" && WithMarket("0700", "HK") == "0700.HK";
    assert Zeros(1) + "0700" == "00700";
    LeadingZerosValue(1, "0700");
    HkExample("00700", "0700");
  }

  /** "00001.HK" normalises to "0001.HK". */
  lemma HkHutchisonExample()
    ensures NormalizePanoramaSymbol("00001.HK", NormalizationOptions(false)) == "0001.HK"
  {
    assert WithMarket("00001", "HK") == "00001.HK" && WithMarket("0001", "HK") == "0001.HK";
    assert Zeros(1) + "0001" == "00001";
    LeadingZerosValue(1, "0001");
    HkExample("00001", "0001");
  }

  /** "09988.HK" normalises to "9988.HK". */
  lemma HkAlibabaExample()
    ensures NormalizePanoramaSymbol("09988.HK", NormalizationOptions(false)) == "9988.HK"
  {
    assert WithMarket("09988", "HK") == "09988.HK" && WithMarket("9988", "HK") == "9988.HK";
    assert Zeros(1) + "9988" == "09988";
    LeadingZerosValue(1, "9988");
    HkExample("09988", "9988");
  }

  /** "161039" gains ".FUND" only with the fund hint. */
  lemma FundHintExample()
    ensures NormalizePanoramaSymbol("161039", NormalizationOptions(false)) == "161039"
    ensures NormalizePanoramaSymbol("161039", NormalizationOptions(true)) == "161039.FUND"
  {
    CanonicalOfTrimmed("161039");
    assert ToUpper("161039") == "161039";
    assert IsSixDigitCode("161039");
    FundHintOnlyForBareCodes("161039");
  }

  /** A six-digit code with a market word is routed by that word alone. */
  lemma InferWithMarket(code: string, market: string)
    requires IsSixDigitCode(code) && IsUpperWord(market)
    ensures InferPanoramaDataSource(WithMarket(code, market))
            == if market in ["SH", "SS", "SZ"] then Some(EastmoneyCn)
               else if market == "FUND" then Some(TiantianFund) else None
  {
    WithMarketFacts(code, market);
    CanonicalOfCanonical(WithMarket(code, market));
  }

  /** "600519.SH" is routed to the east-money source. */
  lemma InferShExample()
    ensures InferPanoramaDataSource("600519.SH") == Some(EastmoneyCn)
  {
    assert IsUpperWord("SH");
    assert WithMarket("600519", "SH") == "600519.SH";
    InferWithMarket("600519", "SH");
  }

  /** "000001.SZ" is routed to the east-money source. */
  lemma InferSzExample()
    ensures InferPanoramaDataSource("000001.SZ") == Some(EastmoneyCn)
  {
    assert IsUpperWord("SZ");
    assert WithMarket("000001", "SZ") == "000001.SZ";
    InferWithMarket("000001", "SZ");
  }

  /** "600519.SS" is routed to the east-money source. */
  lemma InferSsExample()
    ensures InferPanoramaDataSource("600519.SS") == Some(EastmoneyCn)
  {
    assert IsUpperWord("SS");
    assert WithMarket("600519", "SS") == "600519.SS";
    InferWithMarket("600519", "SS");
  }

  /** "161039.FUND" is routed to the fund source. */
  lemma InferFundExample()
    ensures InferPanoramaDataSource("161039.FUND") == Some(TiantianFund)
  {
    assert IsUpperWord("FUND");
    assert WithMarket("161039", "FUND") == "161039.FUND";
    InferWithMarket("161039", "FUND");
  }

  /** "AAPL" has no market and is routed nowhere. */
  lemma InferBareExample()
    ensures InferPanoramaDataSource("AAPL") == None
  {
    CanonicalOfTrimmed("AAPL");
    assert ToUpper("AAPL") == "AAPL";
    assert '.' !in "AAPL";
  }

  /** "0700.HK" is routed nowhere: its code is not six digits. */
  lemma InferHkExample()
    ensures InferPanoramaDataSource("0700.HK") == None
  {
    assert IsUpperWord("HK");
    WithMarketFacts("0700", "HK");
    assert WithMarket("0700", "HK") == "0700.HK";
    CanonicalOfCanonical("0700.HK");
  }

  /** Cash symbols and currency pairs are routed nowhere. */
  lemma InferCashAndPairExamples()
    ensures InferPanoramaDataSource("$CASH-CNY") == None
    ensures InferPanoramaDataSource("CNYUSD=X") == None
  {
    CanonicalOfTrimmed("$CASH-CNY");
    assert ToUpper("$CASH-CNY") == "$CASH-CNY";
    assert "$CASH-CNY"[..6] == CashPrefix;
    CanonicalOfTrimmed("CNYUSD=X");
    assert ToUpper("CNYUSD=X") == "CNYUSD=X";
    assert "CNYUSD=X"[6] == '=';
  }
}
