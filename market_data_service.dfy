/**
 * The pure and loop-shaped parts of `MarketDataService`
 * (src-core/src/market_data/market_data_service.rs): filling quote gaps
 * day by day, planning a sync window per symbol, validating and converting
 * imported quotes, and normalising MPF fund names. The repository, the
 * provider registry and the wall clock are parameters.
 */
module MarketDataService {
  import opened Wrappers
  import opened Strings
  import opened MarketQuotes
  import SymbolNormalizer
  import EastmoneyCnProvider

  // ---------------------------------------------------------------------
  // fill_missing_quotes
  // ---------------------------------------------------------------------

  /** `365 * 10`: how many days before the start the initial scan looks back. */
  const LookbackDays: int := 3650

  /** `quotes_by_date`: for each UTC day, each symbol's quote on that day. */
  type DayIndex = map<Day, map<string, Quote>>

  function Lookup(index: DayIndex, d: Day, s: string): Option<Quote> {
    if d in index && s in index[d] then Some(index[d][s]) else None
  }

  /** Every entry sits under its own symbol and its own day. */
  predicate WellIndexed(index: DayIndex) {
    forall d, s :: d in index && s in index[d] ==>
      index[d][s].symbol == s && DayOf(index[d][s].timestamp) == d
  }

  predicate QuoteFor(q: Quote, d: Day, s: string) {
    DayOf(q.timestamp) == d && q.symbol == s
  }

  /** The index after inserting `quotes` in order; a later quote replaces an earlier one of the same symbol and day. */
  function ByDate(quotes: seq<Quote>): (index: DayIndex)
    ensures WellIndexed(index)
    decreases |quotes|
  {
    if quotes == [] then map[]
    else
      var index := ByDate(quotes[..|quotes| - 1]);
      var q := quotes[|quotes| - 1];
      var d := DayOf(q.timestamp);
      index[d := (if d in index then index[d] else map[])[q.symbol := q]]
  }

  /** `quotes[i]` is the last quote of `s` on day `d`. */
  predicate LastQuoteAt(quotes: seq<Quote>, d: Day, s: string, i: int) {
    0 <= i < |quotes| && QuoteFor(quotes[i], d, s)
    && forall j :: i < j < |quotes| ==> !QuoteFor(quotes[j], d, s)
  }

  /** A quote of another symbol or day appended after the last match keeps it the last. */
  lemma LastQuoteAtExtends(quotes: seq<Quote>, d: Day, s: string, i: int)
    requires |quotes| > 0 && !QuoteFor(quotes[|quotes| - 1], d, s)
    requires LastQuoteAt(quotes[..|quotes| - 1], d, s, i)
    ensures LastQuoteAt(quotes, d, s, i)
  {
    var prefix := quotes[..|quotes| - 1];
    forall j | i < j < |quotes|
      ensures !QuoteFor(quotes[j], d, s)
    {
      if j < |quotes| - 1 {
        assert quotes[j] == prefix[j];
      }
    }
  }

  /** The index holds, for each symbol and day, the last such quote of the input. */
  lemma {:induction false} ByDateKeepsLastQuote(quotes: seq<Quote>, d: Day, s: string)
    ensures Lookup(ByDate(quotes), d, s).None? ==>
              forall i :: 0 <= i < |quotes| ==> !QuoteFor(quotes[i], d, s)
    ensures Lookup(ByDate(quotes), d, s).Some? ==>
              exists i :: LastQuoteAt(quotes, d, s, i) && quotes[i] == Lookup(ByDate(quotes), d, s).value
    decreases |quotes|
  {
    if quotes != [] {
      var n := |quotes| - 1;
      var prefix := quotes[..n];
      ByDateKeepsLastQuote(prefix, d, s);
      if QuoteFor(quotes[n], d, s) {
        assert Lookup(ByDate(quotes), d, s) == Some(quotes[n]);
        assert LastQuoteAt(quotes, d, s, n);
      } else {
        assert Lookup(ByDate(quotes), d, s) == Lookup(ByDate(prefix), d, s);
        if Lookup(ByDate(prefix), d, s).Some? {
          var i :| LastQuoteAt(prefix, d, s, i) && prefix[i] == Lookup(ByDate(prefix), d, s).value;
          LastQuoteAtExtends(quotes, d, s, i);
          assert quotes[i] == prefix[i];
        } else {
          forall i | 0 <= i < |quotes|
            ensures !QuoteFor(quotes[i], d, s)
          {
            if i < n {
              assert quotes[i] == prefix[i];
            }
          }
        }
      }
    }
  }

  /** The quote for `s` on the latest day in [lo, hi] that has one. */
  function LatestUpTo(index: DayIndex, s: string, lo: Day, hi: Day): (r: Option<Quote>)
    ensures WellIndexed(index) && r.Some? ==> r.value.symbol == s
    decreases if hi < lo then 0 else hi - lo + 1
  {
    if hi < lo then None
    else if Lookup(index, hi, s).Some? then Lookup(index, hi, s)
    else LatestUpTo(index, s, lo, hi - 1)
  }

  /** `LatestUpTo` finds the quote of the latest day in the window that has one, and nothing only when no day has one. */
  lemma {:induction false} LatestUpToIsLatest(index: DayIndex, s: string, lo: Day, hi: Day)
    ensures var r := LatestUpTo(index, s, lo, hi);
            (r.None? ==> forall d :: lo <= d <= hi ==> Lookup(index, d, s).None?)
            && (r.Some? ==> exists d :: lo <= d <= hi && Lookup(index, d, s) == r
                                        && forall e :: d < e <= hi ==> Lookup(index, e, s).None?)
    decreases if hi < lo then 0 else hi - lo + 1
  {
    if lo <= hi && Lookup(index, hi, s).None? {
      LatestUpToIsLatest(index, s, lo, hi - 1);
    }
  }

  /** Scanning one more day below the window only matters when the window had nothing. */
  lemma {:induction false} LatestExtendLow(index: DayIndex, s: string, lo: Day, hi: Day)
    requires lo <= hi + 1
    ensures LatestUpTo(index, s, lo - 1, hi)
            == if LatestUpTo(index, s, lo, hi).Some? then LatestUpTo(index, s, lo, hi) else Lookup(index, lo - 1, s)
    decreases hi - lo + 1
  {
    if lo <= hi && Lookup(index, hi, s).None? {
      LatestExtendLow(index, s, lo, hi - 1);
    }
  }

  /** Once the window holds a quote, widening it downwards changes nothing. */
  lemma {:induction false} LatestWiden(index: DayIndex, s: string, lo': Day, lo: Day, hi: Day)
    requires lo' <= lo && LatestUpTo(index, s, lo, hi).Some?
    ensures LatestUpTo(index, s, lo', hi) == LatestUpTo(index, s, lo, hi)
    decreases hi - lo + 1
  {
    if Lookup(index, hi, s).None? {
      LatestWiden(index, s, lo', lo, hi - 1);
    }
  }

  /**
   * `last_known_quotes[s]` after the days `visited` of the main loop: the
   * quote of the latest visited day that has one, else the result of the
   * initial backward scan.
   */
  function LastKnown(index: DayIndex, s: string, start: Day, visited: seq<Day>): (r: Option<Quote>)
    ensures WellIndexed(index) && r.Some? ==> r.value.symbol == s
    decreases |visited|
  {
    if visited == [] then LatestUpTo(index, s, start - LookbackDays, start - 1)
    else
      var d := visited[|visited| - 1];
      if Lookup(index, d, s).Some? then Lookup(index, d, s)
      else LastKnown(index, s, start, visited[..|visited| - 1])
  }

  /** The copy of a quote stamped 12:00 UTC on day `d`. */
  function Restamp(q: Quote, d: Day): Quote {
    q.(timestamp := AtHour(d, 12))
  }

  /** What is emitted for symbol `s` on day `d` after the days `visited`. */
  function Emitted(index: DayIndex, s: string, start: Day, visited: seq<Day>, d: Day): Option<Quote> {
    match LastKnown(index, s, start, visited)
    case Some(q) => Some(Restamp(q, d))
    case None => None
  }

  /** What is emitted for `s` on day `d`, as a list of at most one quote of `s`. */
  function EmittedList(index: DayIndex, s: string, start: Day, visited: seq<Day>, d: Day): (r: seq<Quote>)
    ensures |r| <= 1
    ensures WellIndexed(index) ==> forall q :: q in r ==> q.symbol == s
    ensures r == [] <==> Emitted(index, s, start, visited, d).None?
    ensures r != [] ==> Emitted(index, s, start, visited, d) == Some(r[0])
  {
    match Emitted(index, s, start, visited, d)
    case Some(q) => [q]
    case None => []
  }

  /** The quotes emitted on day `d`, one per required symbol that has a known quote, in `required` order. */
  function DayQuotes(index: DayIndex, required: seq<string>, start: Day, visited: seq<Day>, d: Day): (r: seq<Quote>)
    ensures |r| <= |required|
    ensures forall q :: q in r ==> q.timestamp == AtHour(d, 12)
    decreases |required|
  {
    if required == [] then []
    else
      var n := |required| - 1;
      DayQuotes(index, required[..n], start, visited, d) + EmittedList(index, required[n], start, visited, d)
  }

  /** `fill_missing_quotes` over the days `days` (what `get_days_between(start, end)` yields). */
  function Filled(index: DayIndex, required: seq<string>, start: Day, days: seq<Day>): seq<Quote>
    decreases |days|
  {
    if days == [] then []
    else Filled(index, required, start, days[..|days| - 1]) + DayQuotes(index, required, start, days, days[|days| - 1])
  }

  /** A `HashSet`: each symbol at most once. */
  predicate Distinct(required: seq<string>) {
    forall i, j :: 0 <= i < j < |required| ==> required[i] != required[j]
  }

  /**
   * The quotes of a day are exactly what is emitted for the required
   * symbols: each comes from one of them, and each symbol with a known
   * quote contributes its quote.
   */
  lemma {:induction false} DayQuotesMembers(index: DayIndex, required: seq<string>, start: Day, visited: seq<Day>, d: Day)
    ensures forall q :: q in DayQuotes(index, required, start, visited, d) ==>
              exists k :: 0 <= k < |required| && Emitted(index, required[k], start, visited, d) == Some(q)
    ensures forall k :: 0 <= k < |required| && Emitted(index, required[k], start, visited, d).Some? ==>
              Emitted(index, required[k], start, visited, d).value in DayQuotes(index, required, start, visited, d)
    decreases |required|
  {
    if required != [] {
      var n := |required| - 1;
      var prefix := required[..n];
      DayQuotesMembers(index, prefix, start, visited, d);
      var p := DayQuotes(index, prefix, start, visited, d);
      var tail := EmittedList(index, required[n], start, visited, d);
      assert DayQuotes(index, required, start, visited, d) == p + tail;
      forall q | q in p + tail
        ensures exists k :: 0 <= k < |required| && Emitted(index, required[k], start, visited, d) == Some(q)
      {
        if q in p {
          var k :| 0 <= k < n && Emitted(index, prefix[k], start, visited, d) == Some(q);
          assert prefix[k] == required[k];
          assert Emitted(index, required[k], start, visited, d) == Some(q);
        } else {
          assert q == tail[0];
          assert Emitted(index, required[n], start, visited, d) == Some(q);
        }
      }
      forall k | 0 <= k < |required| && Emitted(index, required[k], start, visited, d).Some?
        ensures Emitted(index, required[k], start, visited, d).value in p + tail
      {
        if k < n {
          assert prefix[k] == required[k];
          assert Emitted(index, prefix[k], start, visited, d).value in p;
        } else {
          assert tail[0] in tail;
        }
      }
    }
  }

  /** What is emitted for `s` is a quote of `s`. */
  lemma EmittedSymbol(index: DayIndex, s: string, start: Day, visited: seq<Day>, d: Day)
    requires WellIndexed(index)
    ensures Emitted(index, s, start, visited, d).Some? ==> Emitted(index, s, start, visited, d).value.symbol == s
  {
  }

  /** Every quote emitted on a day carries one of the required symbols. */
  lemma DayQuotesSymbols(index: DayIndex, required: seq<string>, start: Day, visited: seq<Day>, d: Day)
    requires WellIndexed(index)
    ensures forall q :: q in DayQuotes(index, required, start, visited, d) ==> q.symbol in required
  {
    DayQuotesMembers(index, required, start, visited, d);
    forall q | q in DayQuotes(index, required, start, visited, d)
      ensures q.symbol in required
    {
      var k :| 0 <= k < |required| && Emitted(index, required[k], start, visited, d) == Some(q);
      EmittedSymbol(index, required[k], start, visited, d);
    }
  }

  /** No two quotes of the list share a symbol. */
  predicate SymbolsDistinct(qs: seq<Quote>) {
    forall i, j :: 0 <= i < j < |qs| ==> qs[i].symbol != qs[j].symbol
  }

  /** Appending at most one quote of a symbol not yet present keeps the symbols distinct. */
  lemma AppendKeepsSymbolsDistinct(p: seq<Quote>, tail: seq<Quote>, s: string)
    requires SymbolsDistinct(p)
    requires forall x :: x in p ==> x.symbol != s
    requires |tail| <= 1 && forall x :: x in tail ==> x.symbol == s
    ensures SymbolsDistinct(p + tail)
  {
    forall i, j | 0 <= i < j < |p + tail|
      ensures (p + tail)[i].symbol != (p + tail)[j].symbol
    {
      assert (p + tail)[i] == p[i];
      if j == |p| {
        assert p[i] in p;
        assert (p + tail)[j] == tail[0];
        assert tail[0] in tail;
      } else {
        assert (p + tail)[j] == p[j];
      }
    }
  }

  /** On one day no symbol is emitted twice. */
  lemma {:induction false} DaySymbolsDistinct(index: DayIndex, required: seq<string>, start: Day, visited: seq<Day>, d: Day)
    requires WellIndexed(index) && Distinct(required)
    ensures SymbolsDistinct(DayQuotes(index, required, start, visited, d))
    decreases |required|
  {
    if required != [] {
      var n := |required| - 1;
      var prefix := required[..n];
      var p := DayQuotes(index, prefix, start, visited, d);
      var tail := EmittedList(index, required[n], start, visited, d);
      assert DayQuotes(index, required, start, visited, d) == p + tail;
      assert Distinct(prefix);
      DaySymbolsDistinct(index, prefix, start, visited, d);
      assert forall q :: q in p ==> q.symbol != required[n] by {
        DayQuotesSymbols(index, prefix, start, visited, d);
        forall q | q in p ensures q.symbol != required[n] {
          var k :| 0 <= k < n && prefix[k] == q.symbol;
          assert required[k] == q.symbol;
        }
      }
      AppendKeepsSymbolsDistinct(p, tail, required[n]);
    }
  }

  /** On one day, no symbol is emitted twice and every emitted quote carries a required symbol. */
  lemma DayQuotesDistinct(index: DayIndex, required: seq<string>, start: Day, visited: seq<Day>, d: Day)
    requires WellIndexed(index) && Distinct(required)
    ensures var r := DayQuotes(index, required, start, visited, d);
            (forall q :: q in r ==> q.symbol in required)
            && forall i, j :: 0 <= i < j < |r| ==> r[i].symbol != r[j].symbol
  {
    DayQuotesSymbols(index, required, start, visited, d);
    DaySymbolsDistinct(index, required, start, visited, d);
  }



  /** Every filled quote is a required symbol's, stamped 12:00 on one of the days, and no day repeats a symbol. */
  lemma {:induction false} FilledShape(index: DayIndex, required: seq<string>, start: Day, days: seq<Day>, q: Quote)
    requires WellIndexed(index) && Distinct(required)
    requires q in Filled(index, required, start, days)
    ensures q.symbol in required
    ensures exists i :: 0 <= i < |days| && q.timestamp == AtHour(days[i], 12)
    decreases |days|
  {
    var n := |days| - 1;
    var r := DayQuotes(index, required, start, days, days[n]);
    DayQuotesDistinct(index, required, start, days, days[n]);
    if q in Filled(index, required, start, days[..n]) {
      FilledShape(index, required, start, days[..n], q);
      var i :| 0 <= i < n && q.timestamp == AtHour(days[..n][i], 12);
      assert days[..n][i] == days[i];
    } else {
      assert q in r;
    }
  }

  /** `get_days_between(start, end)` for consecutive days from `start`. */
  predicate ConsecutiveFrom(days: seq<Day>, start: Day) {
    forall i :: 0 <= i < |days| ==> days[i] == start + i
  }

  /**
   * Over consecutive days from `start`, the quote known after `k` days is the
   * latest quote on or before day `start + k - 1`, looking back at most
   * 3650 days before `start`.
   */
  lemma {:induction false} LastKnownIsLatest(index: DayIndex, s: string, start: Day, days: seq<Day>, k: nat)
    requires ConsecutiveFrom(days, start) && k <= |days|
    ensures LastKnown(index, s, start, days[..k]) == LatestUpTo(index, s, start - LookbackDays, start + k - 1)
  {
    if k > 0 {
      LastKnownIsLatest(index, s, start, days, k - 1);
      assert days[..k][..k - 1] == days[..k - 1];
      assert days[..k][k - 1] == start + k - 1;
    }
  }

  /**
   * The quote filled in for `s` on the `i`-th of consecutive days is the
   * latest quote for `s` on or before that day (and at most 3650 days before
   * the start), restamped at noon; without one, nothing is emitted.
   */
  lemma FilledIsLatestOnOrBefore(index: DayIndex, s: string, start: Day, days: seq<Day>, i: nat)
    requires ConsecutiveFrom(days, start) && i < |days|
    ensures Emitted(index, s, start, days[..i + 1], days[i])
            == match LatestUpTo(index, s, start - LookbackDays, days[i])
               case Some(q) => Some(Restamp(q, days[i]))
               case None => None
  {
    LastKnownIsLatest(index, s, start, days, i + 1);
  }

  /** `fill_missing_quotes`; `days` is what `get_days_between(start_date, end_date)` returns. */
  method FillMissingQuotes(quotes: seq<Quote>, required: seq<string>, start: Day, days: seq<Day>)
    returns (filled: seq<Quote>)
    requires Distinct(required)
    ensures required == [] ==> filled == []
    ensures filled == Filled(ByDate(quotes), required, start, days)
  {
    if required == [] {
      FilledWithoutSymbols(ByDate(quotes), start, days);
      return [];
    }
    var index := IndexByDate(quotes);
    var known := InitialLookback(index, required, start);
    filled := FillDays(index, required, start, days, known);
  }

  /** With no required symbol nothing is ever filled. */
  lemma {:induction false} FilledWithoutSymbols(index: DayIndex, start: Day, days: seq<Day>)
    ensures Filled(index, [], start, days) == []
    decreases |days|
  {
    if days != [] {
      FilledWithoutSymbols(index, start, days[..|days| - 1]);
    }
  }

  /** Builds `quotes_by_date`. */
  method IndexByDate(quotes: seq<Quote>) returns (index: DayIndex)
    ensures index == ByDate(quotes)
  {
    index := map[];
    for i := 0 to |quotes|
      invariant index == ByDate(quotes[..i])
    {
      assert quotes[..i + 1][..i] == quotes[..i];
      var q := quotes[i];
      var d := DayOf(q.timestamp);
      var daily := if d in index then index[d] else map[];
      index := index[d := daily[q.symbol := q]];
    }
    assert quotes[..|quotes|] == quotes;
  }

  /**
   * One pass over a day's quotes: each required symbol takes that day's
   * quote, or (with `onlyNew`) only a symbol not yet known does.
   */
  method AbsorbDay(known: map<string, Quote>, daily: map<string, Quote>, required: seq<string>, onlyNew: bool)
    returns (r: map<string, Quote>)
    ensures forall s :: s in r <==> s in known || (s in daily && s in required)
    ensures forall s :: s in r ==>
              r[s] == if s in daily && s in required && (!onlyNew || s !in known) then daily[s] else known[s]
  {
    r := known;
    var todo := daily.Keys;
    while todo != {}
      invariant todo <= daily.Keys
      invariant forall s :: s in r <==> s in known || (s in daily && s !in todo && s in required)
      invariant forall s :: s in r ==>
                  r[s] == if s in daily && s !in todo && s in required && (!onlyNew || s !in known)
                          then daily[s] else known[s]
      decreases |todo|
    {
      var s :| s in todo;
      if s in required && (!onlyNew || s !in r) {
        r := r[s := daily[s]];
      }
      todo := todo - {s};
    }
  }

  /** `known` holds exactly the required symbols that have a quote in [lo, hi], with the latest one. */
  ghost predicate Scanned(known: map<string, Quote>, index: DayIndex, required: seq<string>, lo: Day, hi: Day) {
    forall s :: (s in known <==> s in required && LatestUpTo(index, s, lo, hi).Some?)
                && (s in known ==> known[s] == LatestUpTo(index, s, lo, hi).value)
  }

  lemma {:induction false} DistinctSize(required: seq<string>)
    requires Distinct(required)
    ensures |set s | s in required| == |required|
  {
    if required != [] {
      var n := |required| - 1;
      DistinctSize(required[..n]);
      assert (set s | s in required) == (set s | s in required[..n]) + {required[n]};
      assert required[n] !in (set s | s in required[..n]);
    }
  }

  lemma {:induction false} SubsetSize(a: set<string>, b: set<string>)
    requires a <= b
    ensures |a| <= |b|
    decreases |a|
  {
    if a != {} {
      var y :| y in a;
      SubsetSize(a - {y}, b - {y});
    }
  }

  lemma SubsetOfSameSize(a: set<string>, b: set<string>)
    requires a <= b && |a| == |b|
    ensures a == b
  {
    if a != b {
      var x :| x in b && x !in a;
      SubsetSize(a, b - {x});
    }
  }

  /** The backward scan from `start - 1`: the first quote found per required symbol, at most 3650 days back. */
  method InitialLookback(index: DayIndex, required: seq<string>, start: Day) returns (known: map<string, Quote>)
    requires Distinct(required)
    ensures Scanned(known, index, required, start - LookbackDays, start - 1)
  {
    known := map[];
    var current := start - 1;
    var lookback := 0;
    while lookback < LookbackDays
      invariant 0 <= lookback <= LookbackDays && current == start - 1 - lookback
      invariant Scanned(known, index, required, current + 1, start - 1)
    {
      known := ScanDay(known, index, required, current, start - 1);
      if |known| == |required| {
        AllKnownStaysKnown(known, index, required, start - LookbackDays, current, start - 1);
        break;
      }
      current := current - 1;
      lookback := lookback + 1;
    }
  }

  /** One step of the backward scan: day `current` fills in the required symbols not yet known. */
  method ScanDay(known: map<string, Quote>, index: DayIndex, required: seq<string>, current: Day, hi: Day)
    returns (r: map<string, Quote>)
    requires current <= hi && Scanned(known, index, required, current + 1, hi)
    ensures Scanned(r, index, required, current, hi)
  {
    r := known;
    if current in index {
      r := AbsorbDay(known, index[current], required, true);
    }
    forall s ensures LatestUpTo(index, s, current, hi)
                     == if LatestUpTo(index, s, current + 1, hi).Some?
                        then LatestUpTo(index, s, current + 1, hi) else Lookup(index, current, s) {
      LatestExtendLow(index, s, current + 1, hi);
    }
  }

  /** Once every required symbol is known, scanning further back would change nothing. */
  lemma AllKnownStaysKnown(known: map<string, Quote>, index: DayIndex, required: seq<string>, lo': Day, lo: Day, hi: Day)
    requires Distinct(required) && lo' <= lo
    requires Scanned(known, index, required, lo, hi) && |known| == |required|
    ensures Scanned(known, index, required, lo', hi)
  {
    DistinctSize(required);
    SubsetOfSameSize(known.Keys, set s | s in required);
    forall s | s in required
      ensures LatestUpTo(index, s, lo', hi) == LatestUpTo(index, s, lo, hi) {
      assert s in known.Keys;
      LatestWiden(index, s, lo', lo, hi);
    }
  }

  /** `known` holds exactly the required symbols with a last known quote after `visited`, with that quote. */
  ghost predicate Tracks(known: map<string, Quote>, index: DayIndex, required: seq<string>, start: Day, visited: seq<Day>) {
    forall s :: (s in known <==> s in required && LastKnown(index, s, start, visited).Some?)
                && (s in known ==> known[s] == LastKnown(index, s, start, visited).value)
  }

  /** The main loop over the days: take each day's quotes, then emit one per known required symbol. */
  method FillDays(index: DayIndex, required: seq<string>, start: Day, days: seq<Day>, known0: map<string, Quote>)
    returns (filled: seq<Quote>)
    requires Scanned(known0, index, required, start - LookbackDays, start - 1)
    ensures filled == Filled(index, required, start, days)
  {
    filled := [];
    var known := known0;
    assert days[..0] == [];
    for i := 0 to |days|
      invariant Tracks(known, index, required, start, days[..i])
      invariant filled == Filled(index, required, start, days[..i])
    {
      var d := days[i];
      var visited := days[..i + 1];
      assert visited[..i] == days[..i] && visited[i] == d;
      known := TrackDay(index, required, start, visited, known);
      var today := EmitDay(index, required, start, visited, d, known);
      filled := filled + today;
    }
    assert days[..|days|] == days;
  }

  /** One day of the main loop: that day's quotes replace the known ones of their symbols. */
  method TrackDay(index: DayIndex, required: seq<string>, start: Day, visited: seq<Day>, known: map<string, Quote>)
    returns (r: map<string, Quote>)
    requires |visited| > 0 && Tracks(known, index, required, start, visited[..|visited| - 1])
    ensures Tracks(r, index, required, start, visited)
  {
    var d := visited[|visited| - 1];
    r := known;
    if d in index {
      r := AbsorbDay(known, index[d], required, false);
    }
  }

  /** Emits, in `required` order, each known symbol's quote restamped at noon on `d`. */
  method EmitDay(index: DayIndex, required: seq<string>, start: Day, visited: seq<Day>, d: Day, known: map<string, Quote>)
    returns (today: seq<Quote>)
    requires Tracks(known, index, required, start, visited)
    ensures today == DayQuotes(index, required, start, visited, d)
  {
    today := [];
    for k := 0 to |required|
      invariant today == DayQuotes(index, required[..k], start, visited, d)
    {
      assert required[..k + 1][..k] == required[..k];
      var s := required[k];
      if s in known {
        today := today + [Restamp(known[s], d)];
      }
    }
    assert required[..|required|] == required;
  }

  // ---------------------------------------------------------------------
  // calculate_sync_plan
  // ---------------------------------------------------------------------

  /** A symbol to fetch, its currency and the instant (00:00 UTC) the fetch starts from. */
  datatype SymbolSyncPlanItem = SymbolSyncPlanItem(symbol: string, currency: string, start: Timestamp)

  /**
   * The first day to fetch for `symbol` up to `endDay`: the default window
   * of `historyDays` days when refetching everything or when no quote is
   * stored; otherwise the day after the latest stored quote, but never
   * later than `endDay` (the last day is fetched again).
   */
  function SyncStartDay(refetchAll: bool, symbol: string, latest: map<string, Quote>, endDay: Day, historyDays: nat): (d: Day)
    ensures d <= endDay
    ensures refetchAll || symbol !in latest ==> d == endDay - historyDays
    ensures !refetchAll && symbol in latest ==>
              var last := DayOf(latest[symbol].timestamp);
              d <= last + 1 && (d == last + 1 || d == endDay)
  {
    if refetchAll then endDay - historyDays
    else if symbol in latest then
      var last := DayOf(latest[symbol].timestamp);
      if last >= endDay then endDay else last + 1
    else endDay - historyDays
  }

  /** The latest quotes the repository reports; an error counts as none. */
  function LatestOrNone(latestQuotes: Result<map<string, Quote>, string>): map<string, Quote> {
    match latestQuotes
    case Ok(m) => m
    case Err(_) => map[]
  }

  /**
   * `calculate_sync_plan`: one item per (symbol, currency) pair, in order,
   * starting at 00:00 UTC of its start day. `latestQuotes` is what
   * `get_latest_quotes_for_symbols` returned (only consulted without
   * `refetchAll`); `historyDays` is `DEFAULT_HISTORY_DAYS`.
   */
  method CalculateSyncPlan(refetchAll: bool, pairs: seq<(string, string)>, endTime: Timestamp,
                           latestQuotes: Result<map<string, Quote>, string>, historyDays: nat)
    returns (plan: seq<SymbolSyncPlanItem>)
    ensures |plan| == |pairs|
    ensures forall i :: 0 <= i < |pairs| ==>
              plan[i] == SymbolSyncPlanItem(pairs[i].0, pairs[i].1,
                AtHour(SyncStartDay(refetchAll, pairs[i].0, LatestOrNone(latestQuotes), DayOf(endTime), historyDays), 0))
  {
    if pairs == [] {
      return [];
    }
    var endDay := DayOf(endTime);
    var defaultStart := endDay - historyDays;
    if refetchAll {
      plan := seq(|pairs|, i requires 0 <= i < |pairs| => SymbolSyncPlanItem(pairs[i].0, pairs[i].1, AtHour(defaultStart, 0)));
      return;
    }
    var latest := LatestOrNone(latestQuotes);
    plan := [];
    for i := 0 to |pairs|
      invariant |plan| == i
      invariant forall j :: 0 <= j < i ==>
                  plan[j] == SymbolSyncPlanItem(pairs[j].0, pairs[j].1,
                    AtHour(SyncStartDay(false, pairs[j].0, latest, endDay, historyDays), 0))
    {
      var (symbol, currency) := pairs[i];
      var startDay := defaultStart;
      if symbol in latest {
        var last := DayOf(latest[symbol].timestamp);
        startDay := if last >= endDay then endDay else last + 1;
      }
      // The source skips a symbol already synced past the end; no start computed above can be.
      if startDay <= endDay {
        plan := plan + [SymbolSyncPlanItem(symbol, currency, AtHour(startDay, 0))];
      }
    }
  }

  /**
   * A planned fetch never leaves a gap after the latest stored quote and
   * never starts after the end; it re-reads stored days only when the
   * latest quote is already on or after the end day.
   */
  lemma SyncWindowFollowsLatest(symbol: string, latest: map<string, Quote>, endDay: Day, historyDays: nat)
    requires symbol in latest
    ensures var d := SyncStartDay(false, symbol, latest, endDay, historyDays);
            var last := DayOf(latest[symbol].timestamp);
            d <= endDay && d <= last + 1 && (d <= last <==> last >= endDay)
  {
  }

  // ---------------------------------------------------------------------
  // Quote import: validation, conversion and the classification loop
  // ---------------------------------------------------------------------

  datatype ImportValidationStatus = Valid | Warning(message: string) | Error(message: string)

  /** A row of an imported quote file; `date` is text meant to be `YYYY-MM-DD`. */
  datatype QuoteImport = QuoteImport(
    symbol: string,
    date: string,
    open: Option<real>,
    high: Option<real>,
    low: Option<real>,
    close: real,
    volume: Option<real>,
    currency: string,
    validationStatus: ImportValidationStatus)

  const SymbolRequired := "Symbol is required"
  const InvalidDate := "Invalid date format. Expected YYYY-MM-DD"
  const CloseNotPositive := "Close price must be greater than 0"
  const HighBelowLow := "High price cannot be less than low price"
  const OpenOutsideRange := "Open price is outside high-low range"
  const CloseOutsideRange := "Close price is outside high-low range"
  const AlreadyExists := "Quote already exists, skipping"

  /** Open, high and low are all given. */
  predicate HasOhl(q: QuoteImport) {
    q.open.Some? && q.high.Some? && q.low.Some?
  }

  /**
   * `validate_quote_data`; `parseDate` is `NaiveDate::parse_from_str(_, "%Y-%m-%d")`.
   * The checks run in order and the first that fails decides.
   */
  function ValidateQuoteData(q: QuoteImport, parseDate: string -> Option<Day>): (r: ImportValidationStatus)
    ensures r.Error? <==> Trim(q.symbol) == [] || parseDate(q.date).None? || q.close <= 0.0
                          || (HasOhl(q) && q.high.value < q.low.value)
    ensures r.Warning? <==> !r.Error? && HasOhl(q)
                            && !(q.low.value <= q.open.value <= q.high.value && q.low.value <= q.close <= q.high.value)
    ensures Trim(q.symbol) == [] ==> r == Error(SymbolRequired)
    ensures Trim(q.symbol) != [] && parseDate(q.date).None? ==> r == Error(InvalidDate)
    ensures Trim(q.symbol) != [] && parseDate(q.date).Some? && q.close <= 0.0 ==> r == Error(CloseNotPositive)
  {
    if Trim(q.symbol) == [] then Error(SymbolRequired)
    else if parseDate(q.date).None? then Error(InvalidDate)
    else if q.close <= 0.0 then Error(CloseNotPositive)
    else if HasOhl(q) then
      var (open, high, low) := (q.open.value, q.high.value, q.low.value);
      if high < low then Error(HighBelowLow)
      else if open > high || open < low then Warning(OpenOutsideRange)
      else if q.close > high || q.close < low then Warning(CloseOutsideRange)
      else Valid
    else Valid
  }

  /**
   * `convert_import_quote_to_quote`: a manual quote stamped 12:00 UTC on the
   * row's date, with missing open, high and low taken from the close, no
   * adjustment and zero volume when none is given; `None` when the date
   * does not parse (the parser's error is passed on).
   */
  function ConvertImportQuoteToQuote(q: QuoteImport, parseDate: string -> Option<Day>): (r: Option<Quote>)
    ensures r.None? <==> parseDate(q.date).None?
    ensures r.Some? ==>
              && r.value.id == q.symbol + "_" + q.date
              && r.value.symbol == q.symbol && r.value.currency == q.currency
              && r.value.dataSource == Manual
              && r.value.timestamp == AtHour(parseDate(q.date).value, 12)
              && r.value.close == r.value.adjclose == q.close
              && (q.open.Some? ==> r.value.open == q.open.value) && (q.open.None? ==> r.value.open == q.close)
              && (q.high.Some? ==> r.value.high == q.high.value) && (q.high.None? ==> r.value.high == q.close)
              && (q.low.Some? ==> r.value.low == q.low.value) && (q.low.None? ==> r.value.low == q.close)
              && (q.volume.Some? ==> r.value.volume == q.volume.value) && (q.volume.None? ==> r.value.volume == 0.0)
  {
    match parseDate(q.date)
    case None => None
    case Some(d) =>
      Some(Quote(
        id := q.symbol + "_" + q.date,
        dataSource := Manual,
        timestamp := AtHour(d, 12),
        symbol := q.symbol,
        open := if q.open.Some? then q.open.value else q.close,
        high := if q.high.Some? then q.high.value else q.close,
        low := if q.low.Some? then q.low.value else q.close,
        close := q.close,
        adjclose := q.close,
        volume := if q.volume.Some? then q.volume.value else 0.0,
        currency := q.currency))
  }

  /**
   * A row that validates with open, high and low all given, or none of
   * them, converts to a quote with a positive close inside its range.
   */
  lemma ValidRowConvertsToConsistentQuote(q: QuoteImport, parseDate: string -> Option<Day>)
    requires ValidateQuoteData(q, parseDate).Valid?
    requires HasOhl(q) || (q.open.None? && q.high.None? && q.low.None?)
    ensures ConvertImportQuoteToQuote(q, parseDate).Some?
    ensures HasConsistentRange(ConvertImportQuoteToQuote(q, parseDate).value)
    ensures ConvertImportQuoteToQuote(q, parseDate).value.close > 0.0
  {
  }

  /**
   * With only some of open, high and low given the range is not checked:
   * an open above the close and no high or low validates, yet the quote it
   * converts to has its open above its high.
   */
  lemma PartialRangeIsNotChecked(parseDate: string -> Option<Day>, date: string)
    requires parseDate(date).Some?
    ensures var q := QuoteImport("AAPL", date, Some(5.0), None, None, 3.0, None, "USD", Valid);
            ValidateQuoteData(q, parseDate).Valid?
            && !HasConsistentRange(ConvertImportQuoteToQuote(q, parseDate).value)
  {
  }

  /** The status `import_quotes_from_csv` gives a row, given whether its quote already exists. */
  function ImportStatus(q: QuoteImport, exists_: bool, overwrite: bool, parseDate: string -> Option<Day>): ImportValidationStatus {
    if exists_ then (if overwrite then Valid else Warning(AlreadyExists))
    else ValidateQuoteData(q, parseDate)
  }

  /** The row with the status it is given. */
  function Classified(q: QuoteImport, exists_: bool, overwrite: bool, parseDate: string -> Option<Day>): QuoteImport {
    q.(validationStatus := ImportStatus(q, exists_, overwrite, parseDate))
  }

  /**
   * A row whose quote already exists is imported exactly when overwriting,
   * with a `Valid` status, and otherwise skipped with a warning; a new row
   * is imported exactly when it validates.
   */
  lemma ImportDecision(q: QuoteImport, exists_: bool, overwrite: bool, parseDate: string -> Option<Day>)
    ensures var st := ImportStatus(q, exists_, overwrite, parseDate);
            && (exists_ ==> (st.Valid? <==> overwrite) && (!overwrite ==> st == Warning(AlreadyExists)))
            && (!exists_ ==> (st.Valid? <==> ValidateQuoteData(q, parseDate).Valid?))
  {
  }

  /** The rows whose status is `Valid`, in order. */
  function ValidRows(rows: seq<QuoteImport>): (r: seq<QuoteImport>)
    ensures forall x :: x in r <==> x in rows && x.validationStatus.Valid?
    decreases |rows|
  {
    if rows == [] then []
    else ValidRows(rows[..|rows| - 1])
         + (if rows[|rows| - 1].validationStatus.Valid? then [rows[|rows| - 1]] else [])
  }

  /**
   * The classification loop of `import_quotes_from_csv`: every row gets its
   * status, the rows to import are those with `Valid`; a repository error
   * from `quote_exists` ends the loop with that error.
   */
  function Classify(rows: seq<QuoteImport>, overwrite: bool,
                    quoteExists: (string, string) -> Result<bool, string>,
                    parseDate: string -> Option<Day>): Result<(seq<QuoteImport>, seq<QuoteImport>), string>
    decreases |rows|
  {
    if rows == [] then Ok(([], []))
    else
      var n := |rows| - 1;
      match Classify(rows[..n], overwrite, quoteExists, parseDate)
      case Err(e) => Err(e)
      case Ok((results, toImport)) =>
        match quoteExists(rows[n].symbol, rows[n].date)
        case Err(e) => Err(e)
        case Ok(exists_) =>
          var row := Classified(rows[n], exists_, overwrite, parseDate);
          Ok((results + [row], if row.validationStatus.Valid? then toImport + [row] else toImport))
  }

  /** The loop fails exactly when some row's existence check fails. */
  lemma {:induction false} ClassifyFailsOnRepositoryError(rows: seq<QuoteImport>, overwrite: bool,
                                                         quoteExists: (string, string) -> Result<bool, string>,
                                                         parseDate: string -> Option<Day>)
    ensures Classify(rows, overwrite, quoteExists, parseDate).Err?
            <==> exists i :: 0 <= i < |rows| && quoteExists(rows[i].symbol, rows[i].date).Err?
    decreases |rows|
  {
    if rows != [] {
      var n := |rows| - 1;
      ClassifyFailsOnRepositoryError(rows[..n], overwrite, quoteExists, parseDate);
      if exists i :: 0 <= i < n && quoteExists(rows[..n][i].symbol, rows[..n][i].date).Err? {
        var i :| 0 <= i < n && quoteExists(rows[..n][i].symbol, rows[..n][i].date).Err?;
        assert rows[..n][i] == rows[i];
      } else {
        forall i | 0 <= i < n ensures quoteExists(rows[i].symbol, rows[i].date).Ok? {
          assert rows[..n][i] == rows[i];
        }
      }
    }
  }

  /** On success every row keeps its place and receives its status. */
  lemma {:induction false} ClassifyKeepsRows(rows: seq<QuoteImport>, overwrite: bool,
                                            quoteExists: (string, string) -> Result<bool, string>,
                                            parseDate: string -> Option<Day>)
    requires Classify(rows, overwrite, quoteExists, parseDate).Ok?
    ensures |Classify(rows, overwrite, quoteExists, parseDate).value.0| == |rows|
    ensures forall i :: 0 <= i < |rows| ==>
              quoteExists(rows[i].symbol, rows[i].date).Ok?
              && Classify(rows, overwrite, quoteExists, parseDate).value.0[i]
                 == Classified(rows[i], quoteExists(rows[i].symbol, rows[i].date).value, overwrite, parseDate)
    decreases |rows|
  {
    if rows != [] {
      var n := |rows| - 1;
      ClassifyKeepsRows(rows[..n], overwrite, quoteExists, parseDate);
      var results := Classify(rows, overwrite, quoteExists, parseDate).value.0;
      var prev := Classify(rows[..n], overwrite, quoteExists, parseDate).value.0;
      assert results == prev + [Classified(rows[n], quoteExists(rows[n].symbol, rows[n].date).value, overwrite, parseDate)];
      forall i | 0 <= i < n
        ensures quoteExists(rows[i].symbol, rows[i].date).Ok?
        ensures results[i] == Classified(rows[i], quoteExists(rows[i].symbol, rows[i].date).value, overwrite, parseDate)
      {
        assert rows[..n][i] == rows[i];
        assert results[i] == prev[i];
      }
    }
  }

  /** On success the rows to import are exactly the rows whose status is `Valid`, in order. */
  lemma {:induction false} ClassifyImportsValidRows(rows: seq<QuoteImport>, overwrite: bool,
                                                   quoteExists: (string, string) -> Result<bool, string>,
                                                   parseDate: string -> Option<Day>)
    requires Classify(rows, overwrite, quoteExists, parseDate).Ok?
    ensures Classify(rows, overwrite, quoteExists, parseDate).value.1
            == ValidRows(Classify(rows, overwrite, quoteExists, parseDate).value.0)
    decreases |rows|
  {
    if rows != [] {
      var n := |rows| - 1;
      ClassifyImportsValidRows(rows[..n], overwrite, quoteExists, parseDate);
      var results := Classify(rows, overwrite, quoteExists, parseDate).value.0;
      var prev := Classify(rows[..n], overwrite, quoteExists, parseDate).value.0;
      assert results[..|results| - 1] == prev;
    }
  }

  /** The first repository error is the one reported. */
  lemma {:induction false} ClassifyReportsFirstError(rows: seq<QuoteImport>, overwrite: bool,
                                                    quoteExists: (string, string) -> Result<bool, string>,
                                                    parseDate: string -> Option<Day>, i: nat)
    requires i < |rows| && quoteExists(rows[i].symbol, rows[i].date).Err?
    requires forall j :: 0 <= j < i ==> quoteExists(rows[j].symbol, rows[j].date).Ok?
    ensures Classify(rows, overwrite, quoteExists, parseDate) == Err(quoteExists(rows[i].symbol, rows[i].date).error)
    decreases |rows|
  {
    var n := |rows| - 1;
    if i < n {
      ClassifyReportsFirstError(rows[..n], overwrite, quoteExists, parseDate, i);
    } else {
      assert Classify(rows[..n], overwrite, quoteExists, parseDate).Ok? by {
        ClassifyFailsOnRepositoryError(rows[..n], overwrite, quoteExists, parseDate);
        forall j | 0 <= j < n ensures quoteExists(rows[..n][j].symbol, rows[..n][j].date).Ok? {
          assert rows[..n][j] == rows[j];
        }
      }
    }
  }

  /** The classification loop, row by row. */
  method ImportQuotes(rows: seq<QuoteImport>, overwrite: bool,
                     quoteExists: (string, string) -> Result<bool, string>,
                     parseDate: string -> Option<Day>)
    returns (r: Result<(seq<QuoteImport>, seq<QuoteImport>), string>)
    ensures r == Classify(rows, overwrite, quoteExists, parseDate)
  {
    var results := [];
    var toImport := [];
    for i := 0 to |rows|
      invariant Classify(rows[..i], overwrite, quoteExists, parseDate) == Ok((results, toImport))
    {
      assert rows[..i + 1][..i] == rows[..i];
      var quote := rows[i];
      var found := quoteExists(quote.symbol, quote.date);
      if found.Err? {
        ClassifyFailsOnRepositoryError(rows[..i], overwrite, quoteExists, parseDate);
        forall j | 0 <= j < i ensures quoteExists(rows[j].symbol, rows[j].date).Ok? {
          assert rows[..i][j] == rows[j];
        }
        ClassifyReportsFirstError(rows, overwrite, quoteExists, parseDate, i);
        return Err(found.error);
      }
      var exists_ := found.value;
      if exists_ {
        if overwrite {
          quote := quote.(validationStatus := Valid);
          toImport := toImport + [quote];
        } else {
          quote := quote.(validationStatus := Warning(AlreadyExists));
        }
      } else {
        quote := quote.(validationStatus := ValidateQuoteData(quote, parseDate));
        if quote.validationStatus.Valid? {
          toImport := toImport + [quote];
        }
      }
      results := results + [quote];
    }
    assert rows[..|rows|] == rows;
    return Ok((results, toImport));
  }

  // ---------------------------------------------------------------------
  // normalize_mpf_fund_name
  // ---------------------------------------------------------------------

  /** `is_cjk_char`: CJK Unified Ideographs, Extension A and the Compatibility Ideographs. */
  predicate IsCjk(c: char) {
    ('\U{3400}' <= c <= '\U{4DBF}') || ('\U{4E00}' <= c <= '\U{9FFF}') || ('\U{F900}' <= c <= '\U{FAFF}')
  }

  /**
   * What one character of a fund name becomes: ASCII letters and digits
   * lower-cased, other alphanumerics and CJK ideographs kept, anything else
   * a space. `isAlphanumeric` is Rust's Unicode `char::is_alphanumeric`.
   */
  function MapNameChar(c: char, isAlphanumeric: char -> bool): char {
    if IsAsciiAlphanumeric(c) then LowerChar(c)
    else if isAlphanumeric(c) || IsCjk(c) then c
    else ' '
  }

  predicate EndsInSpace(acc: string) {
    |acc| > 0 && acc[|acc| - 1] == ' '
  }

  /** One turn of the loop: a whitespace result becomes a single space unless one was just written. */
  function NameStep(acc: string, c: char, isAlphanumeric: char -> bool): string {
    var mapped := MapNameChar(c, isAlphanumeric);
    if IsRustWhitespace(mapped) then (if EndsInSpace(acc) then acc else acc + " ")
    else acc + [mapped]
  }

  /** The loop run over `s`, starting from `acc`. */
  function NameFold(acc: string, s: string, isAlphanumeric: char -> bool): string
    decreases |s|
  {
    if s == [] then acc else NameFold(NameStep(acc, s[0], isAlphanumeric), s[1..], isAlphanumeric)
  }

  /** `normalize_mpf_fund_name`. */
  function NormalizedFundName(name: string, isAlphanumeric: char -> bool): string {
    var trimmed := Trim(name);
    if trimmed == [] then [] else Trim(NameFold([], trimmed, isAlphanumeric))
  }

  /** The loop of `normalize_mpf_fund_name`, with its `previous_was_space` flag. */
  method NormalizeMpfFundName(name: string, isAlphanumeric: char -> bool) returns (r: string)
    ensures r == NormalizedFundName(name, isAlphanumeric)
  {
    var trimmed := Trim(name);
    if trimmed == [] {
      return [];
    }
    var normalized := [];
    var previousWasSpace := false;
    for i := 0 to |trimmed|
      invariant NameFold(normalized, trimmed[i..], isAlphanumeric) == NameFold([], trimmed, isAlphanumeric)
      invariant previousWasSpace <==> EndsInSpace(normalized)
    {
      assert trimmed[i..][1..] == trimmed[i + 1..];
      var c := trimmed[i];
      var mapped := MapNameChar(c, isAlphanumeric);
      if IsRustWhitespace(mapped) {
        if !previousWasSpace {
          normalized := normalized + " ";
        }
        previousWasSpace := true;
      } else {
        normalized := normalized + [mapped];
        previousWasSpace := false;
      }
    }
    r := Trim(normalized);
  }

  /** Whitespace appears only as single spaces. */
  predicate SingleSpaced(s: string) {
    && (forall i :: 0 <= i < |s| && IsRustWhitespace(s[i]) ==> s[i] == ' ')
    && (forall i :: 0 <= i < |s| - 1 && s[i] == ' ' ==> s[i + 1] != ' ')
  }

  lemma {:induction false} NameFoldSingleSpaced(acc: string, s: string, isAlphanumeric: char -> bool)
    requires SingleSpaced(acc)
    ensures SingleSpaced(NameFold(acc, s, isAlphanumeric))
    decreases |s|
  {
    if s != [] {
      NameFoldSingleSpaced(NameStep(acc, s[0], isAlphanumeric), s[1..], isAlphanumeric);
    }
  }

  /** A normalised name has no leading, trailing or doubled whitespace, and its only whitespace is the plain space. */
  lemma NormalizedFundNameIsSingleSpaced(name: string, isAlphanumeric: char -> bool)
    ensures var r := NormalizedFundName(name, isAlphanumeric);
            IsTrimmed(r, false) && SingleSpaced(r)
  {
    var trimmed := Trim(name);
    if trimmed != [] {
      var folded := NameFold([], trimmed, isAlphanumeric);
      NameFoldSingleSpaced([], trimmed, isAlphanumeric);
      TrimShape(folded, false);
      var a, b :| 0 <= a <= b <= |folded| && Trim(folded) == folded[a..b];
      assert forall i :: 0 <= i < b - a ==> folded[a..b][i] == folded[a + i];
    }
  }

  /** A word: non-empty, every character maps to something that is not whitespace. */
  predicate IsNameWord(w: string, isAlphanumeric: char -> bool) {
    |w| > 0 && forall i :: 0 <= i < |w| ==> !IsRustWhitespace(MapNameChar(w[i], isAlphanumeric))
  }

  /** A separator: non-empty, every character maps to whitespace (a space, a hyphen, punctuation). */
  predicate IsNameSeparator(sep: string, isAlphanumeric: char -> bool) {
    |sep| > 0 && forall i :: 0 <= i < |sep| ==> IsRustWhitespace(MapNameChar(sep[i], isAlphanumeric))
  }

  /** The words of a name with the given separators between them. */
  function Interleave(words: seq<string>, seps: seq<string>): string
    requires |words| >= 1 && |seps| == |words| - 1
    decreases |words|
  {
    if |words| == 1 then words[0] else words[0] + seps[0] + Interleave(words[1..], seps[1..])
  }

  function MapWord(w: string, isAlphanumeric: char -> bool): string {
    seq(|w|, i requires 0 <= i < |w| => MapNameChar(w[i], isAlphanumeric))
  }

  function MapWords(words: seq<string>, isAlphanumeric: char -> bool): seq<string> {
    seq(|words|, i requires 0 <= i < |words| => MapWord(words[i], isAlphanumeric))
  }

  lemma {:induction false} NameFoldAppend(acc: string, a: string, b: string, isAlphanumeric: char -> bool)
    ensures NameFold(acc, a + b, isAlphanumeric) == NameFold(NameFold(acc, a, isAlphanumeric), b, isAlphanumeric)
    decreases |a|
  {
    if a != [] {
      assert (a + b)[0] == a[0] && (a + b)[1..] == a[1..] + b;
      NameFoldAppend(NameStep(acc, a[0], isAlphanumeric), a[1..], b, isAlphanumeric);
    } else {
      assert a + b == b;
    }
  }

  lemma {:induction false} NameFoldWord(acc: string, w: string, isAlphanumeric: char -> bool)
    requires forall i :: 0 <= i < |w| ==> !IsRustWhitespace(MapNameChar(w[i], isAlphanumeric))
    ensures NameFold(acc, w, isAlphanumeric) == acc + MapWord(w, isAlphanumeric)
    decreases |w|
  {
    if w != [] {
      NameFoldWord(acc + [MapNameChar(w[0], isAlphanumeric)], w[1..], isAlphanumeric);
      assert [MapNameChar(w[0], isAlphanumeric)] + MapWord(w[1..], isAlphanumeric) == MapWord(w, isAlphanumeric);
    }
  }

  lemma {:induction false} NameFoldSpaces(acc: string, sep: string, isAlphanumeric: char -> bool)
    requires EndsInSpace(acc)
    requires forall i :: 0 <= i < |sep| ==> IsRustWhitespace(MapNameChar(sep[i], isAlphanumeric))
    ensures NameFold(acc, sep, isAlphanumeric) == acc
    decreases |sep|
  {
    if sep != [] {
      NameFoldSpaces(acc, sep[1..], isAlphanumeric);
    }
  }

  lemma NameFoldSeparator(acc: string, sep: string, isAlphanumeric: char -> bool)
    requires !EndsInSpace(acc) && IsNameSeparator(sep, isAlphanumeric)
    ensures NameFold(acc, sep, isAlphanumeric) == acc + " "
  {
    NameFoldSpaces(acc + " ", sep[1..], isAlphanumeric);
  }

  /** Folding a name that starts with a word and a separator writes the mapped word and one space, then goes on with the rest. */
  lemma NameFoldFirstWord(acc: string, w: string, sep: string, rest: string, isAlphanumeric: char -> bool)
    requires IsNameWord(w, isAlphanumeric) && IsNameSeparator(sep, isAlphanumeric)
    ensures NameFold(acc, w + sep + rest, isAlphanumeric)
            == NameFold(acc + MapWord(w, isAlphanumeric) + " ", rest, isAlphanumeric)
  {
    var first := acc + MapWord(w, isAlphanumeric);
    NameFoldWord(acc, w, isAlphanumeric);
    assert w + sep + rest == w + (sep + rest);
    NameFoldAppend(acc, w, sep + rest, isAlphanumeric);
    NameFoldAppend(first, sep, rest, isAlphanumeric);
    assert first[|first| - 1] == MapWord(w, isAlphanumeric)[|w| - 1];
    assert !IsRustWhitespace(first[|first| - 1]);
    NameFoldSeparator(first, sep, isAlphanumeric);
  }

  /** The mapped words joined by spaces: the first one, a space, then the rest joined. */
  lemma JoinMappedFirst(words: seq<string>, isAlphanumeric: char -> bool)
    requires |words| > 1
    ensures Join(MapWords(words, isAlphanumeric), ' ')
            == MapWord(words[0], isAlphanumeric) + " " + Join(MapWords(words[1..], isAlphanumeric), ' ')
  {
    var mapped := MapWords(words, isAlphanumeric);
    assert MapWords(words[1..], isAlphanumeric) == mapped[1..];
  }

  /** The loop over words and separators writes the mapped words with one space between them. */
  lemma {:induction false} NameFoldInterleave(acc: string, words: seq<string>, seps: seq<string>, isAlphanumeric: char -> bool)
    requires |words| >= 1 && |seps| == |words| - 1
    requires forall i :: 0 <= i < |words| ==> IsNameWord(words[i], isAlphanumeric)
    requires forall i :: 0 <= i < |seps| ==> IsNameSeparator(seps[i], isAlphanumeric)
    ensures NameFold(acc, Interleave(words, seps), isAlphanumeric) == acc + Join(MapWords(words, isAlphanumeric), ' ')
    decreases |words|
  {
    if |words| == 1 {
      NameFoldWord(acc, words[0], isAlphanumeric);
    } else {
      var first := acc + MapWord(words[0], isAlphanumeric) + " ";
      var rest := Interleave(words[1..], seps[1..]);
      assert IsNameWord(words[0], isAlphanumeric) && IsNameSeparator(seps[0], isAlphanumeric);
      NameFoldFirstWord(acc, words[0], seps[0], rest, isAlphanumeric);
      NameFoldInterleave(first, words[1..], seps[1..], isAlphanumeric);
      JoinMappedFirst(words, isAlphanumeric);
      assert first + Join(MapWords(words[1..], isAlphanumeric), ' ')
             == acc + (MapWord(words[0], isAlphanumeric) + " " + Join(MapWords(words[1..], isAlphanumeric), ' '));
    }
  }

  /** A character that maps to something other than whitespace is not whitespace itself. */
  lemma MappedWordCharIsNotSpace(c: char, isAlphanumeric: char -> bool)
    requires !IsRustWhitespace(MapNameChar(c, isAlphanumeric))
    ensures !IsRustWhitespace(c)
  {
  }

  /**
   * Every spelling of a name with the same words normalises to the mapped
   * words joined by single spaces, whatever the separator runs between the
   * words and the whitespace around them.
   */
  lemma NormalizedInterleave(lead: string, words: seq<string>, seps: seq<string>, trail: string, isAlphanumeric: char -> bool)
    requires |words| >= 1 && |seps| == |words| - 1
    requires forall i :: 0 <= i < |words| ==> IsNameWord(words[i], isAlphanumeric)
    requires forall i :: 0 <= i < |seps| ==> IsNameSeparator(seps[i], isAlphanumeric)
    requires AllSpace(lead, false) && AllSpace(trail, false)
    ensures NormalizedFundName(lead + Interleave(words, seps) + trail, isAlphanumeric)
            == Join(MapWords(words, isAlphanumeric), ' ')
  {
    var core := Interleave(words, seps);
    var mapped := MapWords(words, isAlphanumeric);
    CoreIsTrimmed(words, seps, isAlphanumeric);
    TrimOfPadded(lead, core, trail, false);
    NameFoldInterleave([], words, seps, isAlphanumeric);
    assert [] + Join(mapped, ' ') == Join(mapped, ' ');
    JoinedWordsAreTrimmed(words, isAlphanumeric);
    TrimOfTrimmed(Join(mapped, ' '), false);
  }

  lemma CoreIsTrimmed(words: seq<string>, seps: seq<string>, isAlphanumeric: char -> bool)
    requires |words| >= 1 && |seps| == |words| - 1
    requires forall i :: 0 <= i < |words| ==> IsNameWord(words[i], isAlphanumeric)
    ensures Interleave(words, seps) != [] && IsTrimmed(Interleave(words, seps), false)
  {
    var core := Interleave(words, seps);
    InterleaveEnds(words, seps);
    var last := words[|words| - 1];
    assert IsNameWord(last, isAlphanumeric);
    MappedWordCharIsNotSpace(words[0][0], isAlphanumeric);
    MappedWordCharIsNotSpace(last[|last| - 1], isAlphanumeric);
  }

  lemma JoinedWordsAreTrimmed(words: seq<string>, isAlphanumeric: char -> bool)
    requires |words| >= 1
    requires forall i :: 0 <= i < |words| ==> IsNameWord(words[i], isAlphanumeric)
    ensures IsTrimmed(Join(MapWords(words, isAlphanumeric), ' '), false)
  {
    var mapped := MapWords(words, isAlphanumeric);
    JoinEnds(mapped, ' ');
    var joined := Join(mapped, ' ');
    var first, last := mapped[0], mapped[|mapped| - 1];
    assert IsNameWord(words[0], isAlphanumeric) && IsNameWord(words[|words| - 1], isAlphanumeric);
    assert |first| > 0 && |last| > 0;
    assert joined[0] == first[0];
    assert joined[|joined| - 1] == last[|last| - 1];
  }

  lemma {:induction false} InterleaveEnds(words: seq<string>, seps: seq<string>)
    requires |words| >= 1 && |seps| == |words| - 1
    requires forall i :: 0 <= i < |words| ==> |words[i]| > 0
    ensures var s := Interleave(words, seps);
            |s| > 0 && s[0] == words[0][0] && s[|s| - 1] == words[|words| - 1][|words[|words| - 1]| - 1]
    decreases |words|
  {
    if |words| > 1 {
      InterleaveEnds(words[1..], seps[1..]);
      var w := words[0];
      var rest := Interleave(words[1..], seps[1..]);
      var s := Interleave(words, seps);
      assert s == w + seps[0] + rest;
      assert s[0] == w[0];
      assert s[|s| - 1] == rest[|rest| - 1];
      assert words[1..][|words[1..]| - 1] == words[|words| - 1];
    }
  }

  /**
   * Variant spellings of the same fund compare equal: the same words with
   * other separator runs (double spaces, a hyphen) and other surrounding
   * whitespace normalise to the same name.
   */
  lemma VariantSpellingsAgree(words: seq<string>, seps1: seq<string>, seps2: seq<string>,
                              lead1: string, trail1: string, lead2: string, trail2: string,
                              isAlphanumeric: char -> bool)
    requires |words| >= 1 && |seps1| == |words| - 1 && |seps2| == |words| - 1
    requires forall i :: 0 <= i < |words| ==> IsNameWord(words[i], isAlphanumeric)
    requires forall i :: 0 <= i < |seps1| ==> IsNameSeparator(seps1[i], isAlphanumeric)
    requires forall i :: 0 <= i < |seps2| ==> IsNameSeparator(seps2[i], isAlphanumeric)
    requires AllSpace(lead1, false) && AllSpace(trail1, false) && AllSpace(lead2, false) && AllSpace(trail2, false)
    ensures NormalizedFundName(lead1 + Interleave(words, seps1) + trail1, isAlphanumeric)
            == NormalizedFundName(lead2 + Interleave(words, seps2) + trail2, isAlphanumeric)
  {
    NormalizedInterleave(lead1, words, seps1, trail1, isAlphanumeric);
    NormalizedInterleave(lead2, words, seps2, trail2, isAlphanumeric);
  }

  const ManulifeWords: seq<string> := ["Manulife", "MPF", "Pacific", "Asia", "Equity", "Fund"]

  /** The two spellings of one Manulife fund in the service's unit test normalise equal. */
  lemma ManulifeSpellingsAgree(isAlphanumeric: char -> bool, left: string, right: string)
    requires !isAlphanumeric(' ') && !isAlphanumeric('-')
    requires left == "Manulife MPF Pacific Asia Equity Fund"
    requires right == "  Manulife  MPF  Pacific-Asia  Equity  Fund  "
    ensures NormalizedFundName(left, isAlphanumeric) == NormalizedFundName(right, isAlphanumeric)
  {
    var single := [" ", " ", " ", " ", " "];
    var mixed := ["  ", "  ", "-", "  ", "  "];
    ManulifeWordsAreWords(isAlphanumeric);
    ManulifeSingle(left, single);
    ManulifeMixed(right, mixed);
    VariantSpellingsAgree(ManulifeWords, single, mixed, "", "", "  ", "  ", isAlphanumeric);
  }

  lemma ManulifeWordsAreWords(isAlphanumeric: char -> bool)
    ensures forall i :: 0 <= i < |ManulifeWords| ==> IsNameWord(ManulifeWords[i], isAlphanumeric)
  {
    forall i | 0 <= i < |ManulifeWords| ensures IsNameWord(ManulifeWords[i], isAlphanumeric) {
      var w := ManulifeWords[i];
      assert forall k :: 0 <= k < |w| ==> IsAsciiAlphanumeric(w[k]);
    }
  }

  lemma ManulifeSingle(left: string, single: seq<string>)
    requires left == "Manulife MPF Pacific Asia Equity Fund" && single == [" ", " ", " ", " ", " "]
    ensures left == "" + Interleave(ManulifeWords, single) + ""
  {
    ManulifeInterleave(single, " ", " ", " ", " ", " ");
    SingleSpacedLiteral();
  }

  lemma SingleSpacedLiteral()
    ensures "Manulife" + " " + ("MPF" + " " + ("Pacific" + " " + ("Asia" + " " + ("Equity" + " " + "Fund"))))
            == "Manulife MPF Pacific Asia Equity Fund"
  {
  }

  lemma ManulifeMixed(right: string, mixed: seq<string>)
    requires right == "  Manulife  MPF  Pacific-Asia  Equity  Fund  " && mixed == ["  ", "  ", "-", "  ", "  "]
    ensures right == "  " + Interleave(ManulifeWords, mixed) + "  "
  {
    ManulifeInterleave(mixed, "  ", "  ", "-", "  ", "  ");
    MixedSpacedLiteral();
  }

  lemma MixedSpacedLiteral()
    ensures "  " + ("Manulife" + "  " + ("MPF" + "  " + ("Pacific" + "-" + ("Asia" + "  " + ("Equity" + "  " + "Fund"))))) + "  "
            == "  Manulife  MPF  Pacific-Asia  Equity  Fund  "
  {
  }

  /** The test's six words joined by five given separators, unfolded one word at a time. */
  lemma ManulifeInterleave(seps: seq<string>, s0: string, s1: string, s2: string, s3: string, s4: string)
    requires seps == [s0, s1, s2, s3, s4]
    ensures Interleave(ManulifeWords, seps)
            == "Manulife" + s0 + ("MPF" + s1 + ("Pacific" + s2 + ("Asia" + s3 + ("Equity" + s4 + "Fund"))))
  {
    var w := ManulifeWords;
    assert w[5..] == ["Fund"];
    assert Interleave(w[5..], seps[5..]) == "Fund";
    assert w[4..][1..] == w[5..] && seps[4..][1..] == seps[5..];
    assert Interleave(w[4..], seps[4..]) == "Equity" + s4 + "Fund";
    assert w[3..][1..] == w[4..] && seps[3..][1..] == seps[4..];
    assert Interleave(w[3..], seps[3..]) == "Asia" + s3 + Interleave(w[4..], seps[4..]);
    assert w[2..][1..] == w[3..] && seps[2..][1..] == seps[3..];
    assert Interleave(w[2..], seps[2..]) == "Pacific" + s2 + Interleave(w[3..], seps[3..]);
    assert w[1..][1..] == w[2..] && seps[1..][1..] == seps[2..];
    assert Interleave(w[1..], seps[1..]) == "MPF" + s1 + Interleave(w[2..], seps[2..]);
  }

  // ---------------------------------------------------------------------
  // Small helpers: placeholder names, A-share symbols, decimal text
  // ---------------------------------------------------------------------

  /**
   * `has_placeholder_name`: an asset has no real name when the name is
   * missing, blank, or (trimmed) its id or symbol up to ASCII case.
   */
  function HasPlaceholderName(name: Option<string>, id: string, symbol: string): (r: bool)
    ensures name.None? ==> r
    ensures name.Some? && !r ==> Trim(name.value) != [] && !EqualsIgnoreAsciiCase(Trim(name.value), symbol)
  {
    match name
    case None => true
    case Some(n) =>
      var trimmed := Trim(n);
      trimmed == [] || EqualsIgnoreAsciiCase(trimmed, id) || EqualsIgnoreAsciiCase(trimmed, symbol)
  }

  lemma LowerOfUpper(s: string)
    ensures ToLower(ToUpper(s)) == ToLower(s)
  {
    assert forall i :: 0 <= i < |s| ==> LowerChar(UpperChar(s[i])) == LowerChar(s[i]);
  }

  /** A name that is just the symbol in capitals, padded with whitespace, is a placeholder. */
  lemma SymbolAsNameIsPlaceholder(lead: string, symbol: string, trail: string, id: string)
    requires AllSpace(lead, false) && AllSpace(trail, false)
    requires symbol != [] && IsTrimmed(symbol, false)
    ensures HasPlaceholderName(Some(lead + ToUpper(symbol) + trail), id, symbol)
  {
    assert IsTrimmed(ToUpper(symbol), false);
    TrimOfPadded(lead, ToUpper(symbol), trail, false);
    LowerOfUpper(symbol);
  }

  /** `is_cn_a_share_symbol`: trimmed and upper-cased, the symbol ends in `.SH` or `.SZ`. */
  predicate IsCnAShareSymbol(symbol: string) {
    var n := SymbolNormalizer.Canonical(symbol);
    EndsWith(n, ".SH") || EndsWith(n, ".SZ")
  }

  /** Every symbol the EastMoney provider accepts is an A-share symbol. */
  lemma EastmoneySymbolsAreAShares(symbol: string)
    requires EastmoneyCnProvider.ParseCnSymbol(symbol).Some?
    ensures IsCnAShareSymbol(symbol)
  {
    EastmoneyCnProvider.CnSymbolAccepted(symbol);
    var n := SymbolNormalizer.Canonical(symbol);
    assert n[|n| - 3..] == n[6..];
  }

  /** The text with every `,` removed. */
  function WithoutCommas(s: string): (r: string)
    ensures ',' !in r
    decreases |s|
  {
    if s == [] then []
    else WithoutCommas(s[..|s| - 1]) + (if s[|s| - 1] == ',' then [] else [s[|s| - 1]])
  }

  /**
   * `parse_decimal_from_text`: trimmed and without thousands separators;
   * nothing for blank text or the `--` placeholder, otherwise whatever
   * `decimal` (`Decimal::from_str`) makes of it.
   */
  function ParseDecimalFromText(raw: string, decimal: string -> Option<real>): (r: Option<real>)
    ensures WithoutCommas(Trim(raw)) == [] || WithoutCommas(Trim(raw)) == "--" ==> r.None?
    ensures r.Some? ==> r == decimal(WithoutCommas(Trim(raw)))
    ensures var n := WithoutCommas(Trim(raw)); n != [] && n != "--" ==> r == decimal(n)
  {
    var normalized := WithoutCommas(Trim(raw));
    if normalized == [] || normalized == "--" then None else decimal(normalized)
  }

  function Concat(parts: seq<string>): string
    decreases |parts|
  {
    if parts == [] then [] else parts[0] + Concat(parts[1..])
  }

  lemma {:induction false} WithoutCommasAppend(a: string, b: string)
    ensures WithoutCommas(a + b) == WithoutCommas(a) + WithoutCommas(b)
    decreases |b|
  {
    if b != [] {
      var n := |b| - 1;
      assert (a + b)[..|a + b| - 1] == a + b[..n];
      WithoutCommasAppend(a, b[..n]);
    } else {
      assert a + b == a;
    }
  }

  lemma {:induction false} WithoutCommasOfFree(s: string)
    requires ',' !in s
    ensures WithoutCommas(s) == s
    decreases |s|
  {
    if s != [] {
      WithoutCommasOfFree(s[..|s| - 1]);
    }
  }

  /** A comma-free group followed by its separator loses just the comma. */
  lemma WithoutCommasOfGroup(group: string)
    requires ',' !in group
    ensures WithoutCommas(group + [',']) == group
  {
    WithoutCommasOfFree(group);
    assert (group + [','])[..|group|] == group;
  }

  /** Removing the separators from comma-joined groups leaves the groups run together. */
  lemma {:induction false} WithoutCommasOfJoin(parts: seq<string>)
    requires |parts| >= 1 && forall i :: 0 <= i < |parts| ==> ',' !in parts[i]
    ensures WithoutCommas(Join(parts, ',')) == Concat(parts)
    decreases |parts|
  {
    if |parts| == 1 {
      WithoutCommasOfFree(parts[0]);
      assert Concat(parts[1..]) == [];
    } else {
      var rest := Join(parts[1..], ',');
      assert Join(parts, ',') == (parts[0] + [',']) + rest;
      WithoutCommasOfJoin(parts[1..]);
      WithoutCommasAppend(parts[0] + [','], rest);
      WithoutCommasOfGroup(parts[0]);
    }
  }

  /**
   * Thousands separators are ignored: digit groups joined by commas parse
   * as the digits run together.
   */
  lemma ThousandsSeparatorsIgnored(groups: seq<string>, decimal: string -> Option<real>)
    requires |groups| >= 1 && forall i :: 0 <= i < |groups| ==> |groups[i]| > 0 && AllAsciiDigits(groups[i])
    ensures ParseDecimalFromText(Join(groups, ','), decimal) == decimal(Concat(groups))
  {
    var joined := Join(groups, ',');
    forall i | 0 <= i < |groups| ensures ',' !in groups[i] {
      assert forall k :: 0 <= k < |groups[i]| ==> IsAsciiDigit(groups[i][k]);
    }
    WithoutCommasOfJoin(groups);
    JoinEnds(groups, ',');
    var first, last := groups[0], groups[|groups| - 1];
    assert joined[0] == first[0];
    assert joined[|joined| - 1] == last[|last| - 1];
    TrimOfTrimmed(joined, false);
    assert Concat(groups)[0] == first[0];
  }
}
