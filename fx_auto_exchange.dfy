// Automatic exchange-rate management: which currencies a portfolio needs
// converted into its base currency, registering those pairs, and writing
// Open Exchange Rates quotes for them.
//
// The FX service is foreign code: registering a pair and persisting a rate
// are function parameters that report success or failure, and the methods
// return the trace of what they asked the service to do. A `HashSet` is a
// Dafny `set`, and iterating it picks its elements in an unspecified order.

module AutoExchange {
  import opened Wrappers
  import opened Strings
  import MarketQuotes
  import OpenExchangeRatesClient

  /** Three ASCII letters: the shape of an ISO 4217 code. */
  predicate IsIsoShaped(code: string) {
    |code| == 3 && forall i :: 0 <= i < |code| ==> IsAsciiLetter(code[i])
  }

  /**
   * `normalize_currency`: `normalizeCode` is `normalize_currency_code`,
   * applied to the trimmed value; the upper-cased result is accepted only
   * when it is ISO-shaped.
   */
  function NormalizeCurrency(value: string, normalizeCode: string -> string): (r: Option<string>)
    ensures r.Some? <==> IsIsoShaped(ToUpper(normalizeCode(Trim(value))))
    ensures r.Some? ==> r.value == ToUpper(normalizeCode(Trim(value)))
  {
    var normalized := ToUpper(normalizeCode(Trim(value)));
    if IsIsoShaped(normalized) then Some(normalized) else None
  }

  lemma UpperOfIsoUpper(code: string)
    requires |code| == 3 && forall i :: 0 <= i < 3 ==> IsAsciiUpper(code[i])
    ensures ToUpper(code) == code
  {
    assert code == [code[0]] + [code[1]] + [code[2]];
  }

  lemma TrimOfIso(code: string)
    requires IsIsoShaped(code)
    ensures Trim(code) == code
  {
    TrimOfTrimmed(code, false);
  }

  /** An accepted code is three upper-case ASCII letters. */
  lemma NormalizedCurrencyIsUpperIso(value: string, normalizeCode: string -> string)
    requires NormalizeCurrency(value, normalizeCode).Some?
    ensures var code := NormalizeCurrency(value, normalizeCode).value;
            IsIsoShaped(code) && forall i :: 0 <= i < 3 ==> IsAsciiUpper(code[i])
  {
    var code := NormalizeCurrency(value, normalizeCode).value;
    var raw := normalizeCode(Trim(value));
    assert |raw| == 3;
    forall i | 0 <= i < 3
      ensures IsAsciiUpper(code[i])
    {
      assert code[i] == UpperChar(raw[i]);
    }
  }

  /**
   * Normalizing twice changes nothing, as long as `normalize_currency_code`
   * leaves an upper-case ISO code alone.
   */
  lemma NormalizeCurrencyIdempotent(value: string, normalizeCode: string -> string)
    requires NormalizeCurrency(value, normalizeCode).Some?
    requires var code := NormalizeCurrency(value, normalizeCode).value;
             normalizeCode(code) == code
    ensures var code := NormalizeCurrency(value, normalizeCode).value;
            NormalizeCurrency(code, normalizeCode) == Some(code)
  {
    var code := NormalizeCurrency(value, normalizeCode).value;
    NormalizedCurrencyIsUpperIso(value, normalizeCode);
    TrimOfIso(code);
    UpperOfIsoUpper(code);
  }

  // ---------------------------------------------------------------------
  // build_managed_currency_set
  // ---------------------------------------------------------------------

  /** What one listed currency adds to the managed set. */
  function Managed(code: Option<string>, base: string): set<string> {
    match code
    case Some(c) => if c != base then {c} else {}
    case None => {}
  }

  /** The managed currencies contributed by `currencies`, the normalized base left out. */
  function Collected(base: string, currencies: seq<string>, normalizeCode: string -> string): set<string>
  {
    if currencies == [] then {}
    else Collected(base, currencies[..|currencies| - 1], normalizeCode)
         + Managed(NormalizeCurrency(currencies[|currencies| - 1], normalizeCode), base)
  }

  /** The managed set for a base currency; empty when the base itself is not a valid code. */
  function ManagedCurrencySet(baseCurrency: string, currencies: seq<string>, normalizeCode: string -> string): set<string>
  {
    match NormalizeCurrency(baseCurrency, normalizeCode)
    case None => {}
    case Some(base) => Collected(base, currencies, normalizeCode)
  }

  /** A code is collected iff some listed currency normalizes to it and it is not the base. */
  lemma {:induction false} CollectedMembers(base: string, currencies: seq<string>,
                                            normalizeCode: string -> string, code: string)
    ensures code in Collected(base, currencies, normalizeCode)
            <==> (code != base
                  && exists i :: 0 <= i < |currencies| && NormalizeCurrency(currencies[i], normalizeCode) == Some(code))
  {
    if currencies != [] {
      var n := |currencies| - 1;
      var init := currencies[..n];
      CollectedMembers(base, init, normalizeCode, code);
      if code in Collected(base, currencies, normalizeCode) {
        if code in Collected(base, init, normalizeCode) {
          var i :| 0 <= i < |init| && NormalizeCurrency(init[i], normalizeCode) == Some(code);
          assert currencies[i] == init[i];
        } else {
          assert NormalizeCurrency(currencies[n], normalizeCode) == Some(code);
        }
      }
      if code != base && exists i :: 0 <= i < |currencies|
                                     && NormalizeCurrency(currencies[i], normalizeCode) == Some(code) {
        var i :| 0 <= i < |currencies| && NormalizeCurrency(currencies[i], normalizeCode) == Some(code);
        if i < n {
          assert init[i] == currencies[i];
        }
      }
    }
  }

  /**
   * The managed set is empty when the base is invalid; otherwise it holds
   * exactly the valid normalized codes of the listed currencies other than
   * the normalized base.
   */
  lemma ManagedCurrencySetMembers(baseCurrency: string, currencies: seq<string>,
                                  normalizeCode: string -> string, code: string)
    ensures NormalizeCurrency(baseCurrency, normalizeCode).None? ==>
              ManagedCurrencySet(baseCurrency, currencies, normalizeCode) == {}
    ensures NormalizeCurrency(baseCurrency, normalizeCode).Some? ==>
              (code in ManagedCurrencySet(baseCurrency, currencies, normalizeCode)
               <==> (code != NormalizeCurrency(baseCurrency, normalizeCode).value
                     && exists i :: 0 <= i < |currencies| && NormalizeCurrency(currencies[i], normalizeCode) == Some(code)))
  {
    if NormalizeCurrency(baseCurrency, normalizeCode).Some? {
      CollectedMembers(NormalizeCurrency(baseCurrency, normalizeCode).value, currencies, normalizeCode, code);
    }
  }

  /** The base currency is never managed, and every managed code is ISO-shaped and upper-case. */
  lemma ManagedCurrencySetShape(baseCurrency: string, currencies: seq<string>,
                                normalizeCode: string -> string, code: string)
    requires code in ManagedCurrencySet(baseCurrency, currencies, normalizeCode)
    ensures NormalizeCurrency(baseCurrency, normalizeCode).Some?
    ensures code != NormalizeCurrency(baseCurrency, normalizeCode).value
    ensures IsIsoShaped(code) && forall i :: 0 <= i < 3 ==> IsAsciiUpper(code[i])
  {
    ManagedCurrencySetMembers(baseCurrency, currencies, normalizeCode, code);
    var i :| 0 <= i < |currencies| && NormalizeCurrency(currencies[i], normalizeCode) == Some(code);
    NormalizedCurrencyIsUpperIso(currencies[i], normalizeCode);
  }

  /**
   * `build_managed_currency_set`: the account currencies followed by the
   * asset currencies, each normalized and added unless it is the base.
   */
  method BuildManagedCurrencySet(baseCurrency: string, accountCurrencies: seq<string>,
                                 assetCurrencies: seq<string>, normalizeCode: string -> string)
    returns (currencies: set<string>)
    ensures currencies == ManagedCurrencySet(baseCurrency, accountCurrencies + assetCurrencies, normalizeCode)
  {
    currencies := {};
    var normalizedBase := NormalizeCurrency(baseCurrency, normalizeCode);
    if normalizedBase.None? {
      return;
    }
    var base := normalizedBase.value;
    var all := accountCurrencies + assetCurrencies;
    var i := 0;
    while i < |all|
      invariant 0 <= i <= |all|
      invariant currencies == Collected(base, all[..i], normalizeCode)
    {
      var normalized := NormalizeCurrency(all[i], normalizeCode);
      if normalized.Some? && normalized.value != base {
        currencies := currencies + {normalized.value};
      }
      assert all[..i + 1][..i] == all[..i];
      i := i + 1;
    }
    assert all[..|all|] == all;
  }

  // ---------------------------------------------------------------------
  // ensure_registered_pairs
  // ---------------------------------------------------------------------

  /**
   * `ensure_registered_pairs`: asks the FX service to register
   * `(currency, base)` for every managed currency, in the set's iteration
   * order. A failed registration is only logged, so the result is always
   * `Ok`; `attempted` is the sequence of pairs asked for.
   */
  method EnsureRegisteredPairs(baseCurrency: string, managed: set<string>,
                               register: (string, string) -> Result<(), string>)
    returns (r: Result<(), string>, attempted: seq<(string, string)>)
    ensures r == Ok(())
    ensures |attempted| == |managed|
    ensures forall k :: 0 <= k < |attempted| ==> attempted[k].0 in managed && attempted[k].1 == baseCurrency
    ensures forall c :: c in managed ==> (c, baseCurrency) in attempted
  {
    attempted := [];
    var remaining := managed;
    while remaining != {}
      invariant remaining <= managed
      invariant |attempted| + |remaining| == |managed|
      invariant forall k :: 0 <= k < |attempted| ==>
                  attempted[k].0 in managed - remaining && attempted[k].1 == baseCurrency
      invariant forall c :: c in managed - remaining ==> (c, baseCurrency) in attempted
      decreases |remaining|
    {
      var currency :| currency in remaining;
      var outcome := register(currency, baseCurrency);
      // A failure is logged and the loop goes on either way.
      attempted := attempted + [(currency, baseCurrency)];
      remaining := remaining - {currency};
    }
    r := Ok(());
  }

  // ---------------------------------------------------------------------
  // upsert_open_exchange_rates
  // ---------------------------------------------------------------------

  /** `NewExchangeRate`: one rate to persist. */
  datatype NewExchangeRate = NewExchangeRate(
    fromCurrency: string,
    toCurrency: string,
    rate: real,
    source: MarketQuotes.DataSource)

  /** The rate written for `currency`, or `None` when no cross rate can be computed. */
  function RateFor(currency: string, baseCurrency: string, latestRates: map<string, real>,
                   normalizeCode: string -> string): (r: Option<NewExchangeRate>)
    ensures r.Some? <==> OpenExchangeRatesClient.ComputeCrossRate(latestRates, currency, baseCurrency, normalizeCode).Ok?
    ensures r.Some? ==> r.value.fromCurrency == currency && r.value.toCurrency == baseCurrency
                        && r.value.source == MarketQuotes.OpenExchangeRates
                        && r.value.rate == OpenExchangeRatesClient.ComputeCrossRate(latestRates, currency, baseCurrency, normalizeCode).value
  {
    match OpenExchangeRatesClient.ComputeCrossRate(latestRates, currency, baseCurrency, normalizeCode)
    case Err(_) => None
    case Ok(rate) => Some(NewExchangeRate(currency, baseCurrency, rate, MarketQuotes.OpenExchangeRates))
  }

  /**
   * `upsert_open_exchange_rates`: for each managed currency, in the set's
   * iteration order, computes the cross rate into the base and persists it
   * through `persist`. A currency whose rate cannot be computed or stored is
   * skipped. `written` lists the rates stored, and the count is its length.
   */
  method UpsertOpenExchangeRates(baseCurrency: string, managed: set<string>, latestRates: map<string, real>,
                                 normalizeCode: string -> string, persist: NewExchangeRate -> bool)
    returns (updatedCount: nat, written: seq<NewExchangeRate>)
    ensures updatedCount == |written| <= |managed|
    ensures forall k :: 0 <= k < |written| ==>
              written[k].fromCurrency in managed
              && RateFor(written[k].fromCurrency, baseCurrency, latestRates, normalizeCode) == Some(written[k])
              && persist(written[k])
    ensures forall c :: c in managed ==>
              var rate := RateFor(c, baseCurrency, latestRates, normalizeCode);
              rate.Some? && persist(rate.value) ==> rate.value in written
    ensures forall i, j :: 0 <= i < j < |written| ==> written[i].fromCurrency != written[j].fromCurrency
  {
    updatedCount := 0;
    written := [];
    var remaining := managed;
    while remaining != {}
      invariant remaining <= managed
      invariant updatedCount == |written| <= |managed| - |remaining|
      invariant forall k :: 0 <= k < |written| ==>
                  written[k].fromCurrency in managed - remaining
                  && RateFor(written[k].fromCurrency, baseCurrency, latestRates, normalizeCode) == Some(written[k])
                  && persist(written[k])
      invariant forall c :: c in managed - remaining ==>
                  var rate := RateFor(c, baseCurrency, latestRates, normalizeCode);
                  rate.Some? && persist(rate.value) ==> rate.value in written
      invariant forall i, j :: 0 <= i < j < |written| ==> written[i].fromCurrency != written[j].fromCurrency
      decreases |remaining|
    {
      var currency :| currency in remaining;
      var rate := RateFor(currency, baseCurrency, latestRates, normalizeCode);
      if rate.Some? && persist(rate.value) {
        written := written + [rate.value];
        updatedCount := updatedCount + 1;
      }
      remaining := remaining - {currency};
    }
  }
}
