// How the web server turns requests and data changes into portfolio jobs:
// the job configuration derived from a request body, an account change or a
// batch of activity changes; the exchange-rate provider chosen before a
// market sync; and the account list the valuation step walks.
//
// The application state is not modelled. What the handlers read from it
// (the base currency, the settings, an account's currency, the provider
// settings and the stored API key) are parameters, with a failed read given
// as `None`. Enqueuing the job is left out: the functions and methods here
// return the configuration that would be enqueued.

module PortfolioJobs {
  import opened Wrappers
  import opened Strings
  import AutoExchange

  // ---------------------------------------------------------------------
  // normalize_file_path
  // ---------------------------------------------------------------------

  const FileScheme: string := "file://"

  /** `normalize_file_path`: one leading `file://` is stripped; any other path is kept. */
  function NormalizeFilePath(path: string): (r: string)
    ensures StartsWith(path, FileScheme) ==> FileScheme + r == path
    ensures !StartsWith(path, FileScheme) ==> r == path
  {
    if StartsWith(path, FileScheme) then path[|FileScheme|..] else path
  }

  /** A `file://` URL comes back as the path it was made from, and only one scheme is removed. */
  lemma NormalizeFilePathOfUrl(path: string)
    ensures NormalizeFilePath(FileScheme + path) == path
    ensures NormalizeFilePath(FileScheme + FileScheme + path) == FileScheme + path
  {
    assert (FileScheme + path)[..|FileScheme|] == FileScheme;
    assert (FileScheme + path)[|FileScheme|..] == path;
    assert FileScheme + FileScheme + path == FileScheme + (FileScheme + path);
    assert (FileScheme + (FileScheme + path))[..|FileScheme|] == FileScheme;
    assert (FileScheme + (FileScheme + path))[|FileScheme|..] == FileScheme + path;
  }

  // ---------------------------------------------------------------------
  // Job configurations
  // ---------------------------------------------------------------------

  datatype PortfolioRequestBody = PortfolioRequestBody(
    accountIds: Option<seq<string>>,
    symbols: Option<seq<string>>,
    refetchAllMarketData: bool)

  datatype PortfolioJobConfig = PortfolioJobConfig(
    accountIds: Option<seq<string>>,
    symbols: Option<seq<string>>,
    refetchAllMarketData: bool,
    forceFullRecalculation: bool)

  /** `PortfolioRequestBody::into_config`: a forced recalculation always refetches all market data. */
  function IntoConfig(body: PortfolioRequestBody, forceFullRecalculation: bool): (r: PortfolioJobConfig)
    ensures r.accountIds == body.accountIds && r.symbols == body.symbols
    ensures r.forceFullRecalculation == forceFullRecalculation
    ensures r.refetchAllMarketData <==> forceFullRecalculation || body.refetchAllMarketData
  {
    PortfolioJobConfig(body.accountIds, body.symbols,
                       forceFullRecalculation || body.refetchAllMarketData, forceFullRecalculation)
  }

  /** The FX quote symbol `"{from}{to}=X"`. */
  function FxSymbol(from: string, to: string): string {
    from + to + "=X"
  }

  /** Of two currencies of the same length, the symbol tells both apart. */
  lemma FxSymbolInjective(from: string, to: string, from': string, to': string)
    requires |from| == |from'|
    requires FxSymbol(from, to) == FxSymbol(from', to')
    ensures from == from' && to == to'
  {
    assert from == FxSymbol(from, to)[..|from|];
    assert from' == FxSymbol(from', to')[..|from'|];
    assert to == FxSymbol(from, to)[|from|..|FxSymbol(from, to)| - 2];
    assert to' == FxSymbol(from', to')[|from'|..|FxSymbol(from', to')| - 2];
  }

  datatype AccountPortfolioImpact =
    | CreatedOrUpdated(accountId: string, currency: string)
    | Deleted

  /**
   * `trigger_account_portfolio_job`: a created or updated account is
   * recalculated alone, with the quote converting its currency into the
   * base currency when there is a base currency and the two differ; a
   * deleted account recalculates everything.
   */
  function AccountJobConfig(baseCurrency: string, impact: AccountPortfolioImpact): (r: PortfolioJobConfig)
    ensures !r.refetchAllMarketData && r.forceFullRecalculation
    ensures impact.Deleted? ==> r.accountIds.None? && r.symbols.None?
    ensures impact.CreatedOrUpdated? ==> r.accountIds == Some([impact.accountId])
    ensures impact.CreatedOrUpdated? ==>
              (r.symbols.Some? <==> baseCurrency != "" && baseCurrency != impact.currency)
    ensures r.symbols.Some? ==> r.symbols == Some([FxSymbol(impact.currency, baseCurrency)])
  {
    match impact
    case Deleted => PortfolioJobConfig(None, None, false, true)
    case CreatedOrUpdated(accountId, currency) =>
      var symbols := if baseCurrency != "" && baseCurrency != currency
                     then Some([FxSymbol(currency, baseCurrency)]) else None;
      PortfolioJobConfig(Some([accountId]), symbols, false, true)
  }

  /** An account already in the base currency needs no exchange quote. */
  lemma AccountInBaseCurrencyNeedsNoQuote(baseCurrency: string, accountId: string)
    ensures AccountJobConfig(baseCurrency, CreatedOrUpdated(accountId, baseCurrency)).symbols.None?
    ensures AccountJobConfig("", CreatedOrUpdated(accountId, "USD")).symbols.None?
    ensures AccountJobConfig("HKD", CreatedOrUpdated(accountId, "USD")).symbols == Some(["USDHKD=X"])
  {
    assert FxSymbol("USD", "HKD") == "USDHKD=X";
  }

  // ---------------------------------------------------------------------
  // trigger_activity_portfolio_job
  // ---------------------------------------------------------------------

  datatype ActivityImpact = ActivityImpact(accountId: string, currency: Option<string>, assetId: Option<string>)

  /** The symbols one activity change touches: its asset, and the quote from its account's currency into its own. */
  function ImpactSymbols(impact: ActivityImpact, accountCurrency: string -> Option<string>): set<string> {
    if impact.accountId == "" then {}
    else
      var asset := if impact.assetId.Some? && impact.assetId.value != "" then {impact.assetId.value} else {};
      var quote :=
        if impact.currency.Some? && accountCurrency(impact.accountId).Some?
           && impact.currency.value != accountCurrency(impact.accountId).value
        then {FxSymbol(accountCurrency(impact.accountId).value, impact.currency.value)}
        else {};
      asset + quote
  }

  /** The account ids collected from a list of changes. */
  function CollectedAccounts(impacts: seq<ActivityImpact>): set<string> {
    if impacts == [] then {}
    else
      var last := impacts[|impacts| - 1];
      CollectedAccounts(impacts[..|impacts| - 1]) + (if last.accountId == "" then {} else {last.accountId})
  }

  /** The symbols collected from a list of changes. */
  function CollectedSymbols(impacts: seq<ActivityImpact>, accountCurrency: string -> Option<string>): set<string> {
    if impacts == [] then {}
    else
      CollectedSymbols(impacts[..|impacts| - 1], accountCurrency)
      + ImpactSymbols(impacts[|impacts| - 1], accountCurrency)
  }

  /** Exactly the non-empty account ids of the changes are collected. */
  lemma {:induction false} CollectedAccountsMembers(impacts: seq<ActivityImpact>, id: string)
    ensures id in CollectedAccounts(impacts) <==>
              id != "" && exists i :: 0 <= i < |impacts| && impacts[i].accountId == id
  {
    if impacts != [] {
      var init := impacts[..|impacts| - 1];
      CollectedAccountsMembers(init, id);
      if exists i :: 0 <= i < |init| && init[i].accountId == id {
        var i :| 0 <= i < |init| && init[i].accountId == id;
        assert impacts[i] == init[i];
      }
      if exists i :: 0 <= i < |impacts| && impacts[i].accountId == id {
        var i :| 0 <= i < |impacts| && impacts[i].accountId == id;
        if i < |init| {
          assert init[i] == impacts[i];
        }
      }
    }
  }

  /** A symbol is collected exactly when one of the changes touches it. */
  lemma {:induction false} CollectedSymbolsMembers(impacts: seq<ActivityImpact>,
                                                   accountCurrency: string -> Option<string>, symbol: string)
    ensures symbol in CollectedSymbols(impacts, accountCurrency) <==>
              exists i :: 0 <= i < |impacts| && symbol in ImpactSymbols(impacts[i], accountCurrency)
  {
    if impacts != [] {
      var init := impacts[..|impacts| - 1];
      CollectedSymbolsMembers(init, accountCurrency, symbol);
      if exists i :: 0 <= i < |init| && symbol in ImpactSymbols(init[i], accountCurrency) {
        var i :| 0 <= i < |init| && symbol in ImpactSymbols(init[i], accountCurrency);
        assert impacts[i] == init[i];
      }
      if exists i :: 0 <= i < |impacts| && symbol in ImpactSymbols(impacts[i], accountCurrency) {
        var i :| 0 <= i < |impacts| && symbol in ImpactSymbols(impacts[i], accountCurrency);
        if i < |init| {
          assert init[i] == impacts[i];
        }
      }
    }
  }

  /** A change without an account id contributes nothing. */
  lemma ChangeWithoutAccountIsSkipped(impact: ActivityImpact, accountCurrency: string -> Option<string>)
    requires impact.accountId == ""
    ensures CollectedAccounts([impact]) == {}
    ensures CollectedSymbols([impact], accountCurrency) == {}
  {
    assert [impact][..0] == [];
  }

  /** `HashSet::into_iter().collect()`: the elements in some order, each once. */
  method SetToSeq(s: set<string>) returns (r: seq<string>)
    ensures |r| == |s|
    ensures forall x :: x in r <==> x in s
    ensures forall i, j :: 0 <= i < j < |r| ==> r[i] != r[j]
  {
    r := [];
    var remaining := s;
    while remaining != {}
      invariant remaining <= s
      invariant |r| + |remaining| == |s|
      invariant forall x :: x in r <==> x in s && x !in remaining
      invariant forall i, j :: 0 <= i < j < |r| ==> r[i] != r[j]
      decreases |remaining|
    {
      var x :| x in remaining;
      r := r + [x];
      remaining := remaining - {x};
    }
  }

  /** An empty set becomes `None`, any other its elements. */
  method OptionalSeq(s: set<string>) returns (r: Option<seq<string>>)
    ensures r.None? <==> s == {}
    ensures r.Some? ==> |r.value| == |s| && (forall x :: x in r.value <==> x in s)
    ensures r.Some? ==> forall i, j :: 0 <= i < j < |r.value| ==> r.value[i] != r.value[j]
  {
    if s == {} {
      r := None;
    } else {
      var elements := SetToSeq(s);
      r := Some(elements);
    }
  }

  /**
   * `trigger_activity_portfolio_job`: no job for an empty batch; otherwise
   * a full recalculation with refetch of the accounts and symbols the
   * changes touch, each listed once, or `None` for a list left empty.
   */
  method ActivityJobConfig(impacts: seq<ActivityImpact>, accountCurrency: string -> Option<string>)
    returns (r: Option<PortfolioJobConfig>)
    ensures r.None? <==> impacts == []
    ensures r.Some? ==> r.value.refetchAllMarketData && r.value.forceFullRecalculation
    ensures r.Some? ==> (r.value.accountIds.None? <==> CollectedAccounts(impacts) == {})
    ensures r.Some? && r.value.accountIds.Some? ==>
              forall id :: id in r.value.accountIds.value <==> id in CollectedAccounts(impacts)
    ensures r.Some? ==> (r.value.symbols.None? <==> CollectedSymbols(impacts, accountCurrency) == {})
    ensures r.Some? && r.value.symbols.Some? ==>
              forall s :: s in r.value.symbols.value <==> s in CollectedSymbols(impacts, accountCurrency)
    ensures r.Some? && r.value.accountIds.Some? ==>
              forall i, j :: 0 <= i < j < |r.value.accountIds.value| ==> r.value.accountIds.value[i] != r.value.accountIds.value[j]
    ensures r.Some? && r.value.symbols.Some? ==>
              forall i, j :: 0 <= i < j < |r.value.symbols.value| ==> r.value.symbols.value[i] != r.value.symbols.value[j]
  {
    if impacts == [] {
      return None;
    }
    var accountIds: set<string> := {};
    var symbols: set<string> := {};
    var i := 0;
    while i < |impacts|
      invariant 0 <= i <= |impacts|
      invariant accountIds == CollectedAccounts(impacts[..i])
      invariant symbols == CollectedSymbols(impacts[..i], accountCurrency)
    {
      var impact := impacts[i];
      assert impacts[..i + 1][..i] == impacts[..i];
      if impact.accountId != "" {
        accountIds := accountIds + {impact.accountId};
        if impact.assetId.Some? && impact.assetId.value != "" {
          symbols := symbols + {impact.assetId.value};
        }
        if impact.currency.Some? {
          var currency := accountCurrency(impact.accountId);
          if currency.Some? && impact.currency.value != currency.value {
            symbols := symbols + {FxSymbol(currency.value, impact.currency.value)};
          }
        }
      }
      i := i + 1;
    }
    assert impacts[..|impacts|] == impacts;
    var ids := OptionalSeq(accountIds);
    var syms := OptionalSeq(symbols);
    r := Some(PortfolioJobConfig(ids, syms, true, true));
  }

  // ---------------------------------------------------------------------
  // prepare_auto_exchange_management
  // ---------------------------------------------------------------------

  /** `DATA_SOURCE_OPEN_EXCHANGE_RATES` and `DATA_SOURCE_YAHOO`. */
  const OpenExchangeRatesId: string := "OPEN_EXCHANGE_RATES"
  const YahooId: string := "YAHOO"

  datatype ExchangeSettings = ExchangeSettings(
    handleExchangeAutomatically: bool,
    baseCurrency: string,
    exchangeRateProvider: string)

  datatype ProviderSetting = ProviderSetting(id: string, enabled: bool)

  datatype AutoExchangeContext = AutoExchangeContext(
    baseCurrency: string,
    managedCurrencies: set<string>,
    provider: string,
    openExchangeApiKey: Option<string>)

  /** The market data provider settings list Open Exchange Rates as enabled. */
  predicate OxrEnabled(providers: Option<seq<ProviderSetting>>) {
    providers.Some? && exists i :: 0 <= i < |providers.value| && providers.value[i] == ProviderSetting(OpenExchangeRatesId, true)
  }

  /**
   * The provider choice: Open Exchange Rates only when it is selected (after
   * trimming and upper-casing), enabled, and its stored key is not blank;
   * Yahoo otherwise. The key is carried exactly when Open Exchange Rates is
   * chosen.
   */
  function SelectProvider(selected: string, providers: Option<seq<ProviderSetting>>, storedKey: Option<string>)
    : (r: (string, Option<string>))
    ensures r.0 == OpenExchangeRatesId || r.0 == YahooId
    ensures r.0 == OpenExchangeRatesId <==>
              ToUpper(Trim(selected)) == OpenExchangeRatesId && OxrEnabled(providers)
              && storedKey.Some? && Trim(storedKey.value) != ""
    ensures r.1.Some? <==> r.0 == OpenExchangeRatesId
    ensures r.1.Some? ==> r.1 == storedKey
  {
    if ToUpper(Trim(selected)) != OpenExchangeRatesId then (YahooId, None)
    else if !OxrEnabled(providers) then (YahooId, None)
    else
      var key := if storedKey.Some? && Trim(storedKey.value) != "" then storedKey else None;
      if key.None? then (YahooId, None) else (OpenExchangeRatesId, key)
  }

  /** The default setting `"YAHOO"` and any other unknown selection both mean Yahoo. */
  lemma YahooSelectionNeverUsesKey(providers: Option<seq<ProviderSetting>>, storedKey: Option<string>)
    ensures SelectProvider(YahooId, providers, storedKey) == (YahooId, None)
    ensures SelectProvider(" open_exchange_rates ", None, storedKey) == (YahooId, None)
  {
    assert ToUpper(Trim(YahooId)) == YahooId by {
      TrimOfTrimmed(YahooId, false);
    }
  }

  /**
   * `prepare_auto_exchange_management`: nothing when the settings cannot be
   * read, automatic handling is off, or the base currency is blank;
   * otherwise the managed currencies are built and their pairs registered,
   * and the provider is chosen. Failed listings of accounts or assets
   * arrive as empty lists; a failed registration is only logged.
   */
  method PrepareAutoExchangeManagement(settings: Option<ExchangeSettings>, accountCurrencies: seq<string>,
                                       assetCurrencies: seq<string>, providers: Option<seq<ProviderSetting>>,
                                       storedKey: Option<string>, normalizeCode: string -> string,
                                       register: (string, string) -> Result<(), string>)
    returns (r: Option<AutoExchangeContext>)
    ensures r.None? <==> settings.None? || !settings.value.handleExchangeAutomatically
                         || ToUpper(Trim(settings.value.baseCurrency)) == ""
    ensures r.Some? ==>
              var base := ToUpper(Trim(settings.value.baseCurrency));
              var choice := SelectProvider(settings.value.exchangeRateProvider, providers, storedKey);
              && r.value.baseCurrency == base
              && r.value.managedCurrencies == AutoExchange.ManagedCurrencySet(base, accountCurrencies + assetCurrencies, normalizeCode)
              && r.value.provider == choice.0
              && r.value.openExchangeApiKey == choice.1
  {
    if settings.None? || !settings.value.handleExchangeAutomatically {
      return None;
    }
    var baseCurrency := ToUpper(Trim(settings.value.baseCurrency));
    if baseCurrency == "" {
      return None;
    }
    var managed := AutoExchange.BuildManagedCurrencySet(baseCurrency, accountCurrencies, assetCurrencies, normalizeCode);
    var _, _ := AutoExchange.EnsureRegisteredPairs(baseCurrency, managed, register);
    var choice := SelectProvider(settings.value.exchangeRateProvider, providers, storedKey);
    r := Some(AutoExchangeContext(baseCurrency, managed, choice.0, choice.1));
  }

  // ---------------------------------------------------------------------
  // process_portfolio_job: the TOTAL account
  // ---------------------------------------------------------------------

  /** `PORTFOLIO_TOTAL_ACCOUNT_ID`. */
  const TotalAccountId: string := "TOTAL"

  /** The accounts whose valuation history is computed: the listed ones, then TOTAL unless already listed. */
  function WithTotalAccount(accountIds: seq<string>): (r: seq<string>)
    ensures TotalAccountId in r
    ensures |accountIds| <= |r| && r[..|accountIds|] == accountIds
    ensures forall id :: id in r <==> id in accountIds || id == TotalAccountId
    ensures |r| == if TotalAccountId in accountIds then |accountIds| else |accountIds| + 1
  {
    if TotalAccountId in accountIds then accountIds else accountIds + [TotalAccountId]
  }

  /** Walking the list a second time adds nothing, and TOTAL appears once when the accounts were distinct. */
  lemma WithTotalAccountOnce(accountIds: seq<string>)
    requires forall i, j :: 0 <= i < j < |accountIds| ==> accountIds[i] != accountIds[j]
    ensures WithTotalAccount(WithTotalAccount(accountIds)) == WithTotalAccount(accountIds)
    ensures forall i, j :: 0 <= i < j < |WithTotalAccount(accountIds)| ==>
              WithTotalAccount(accountIds)[i] != WithTotalAccount(accountIds)[j]
  {
  }
}
