// The MPF asset editor sheet: the sub-fund rows typed into the form are
// cleaned, matched by name against the sub-funds already stored so that
// their valuation fields survive the edit, and written back into the asset's
// attribute object together with the owner, trustee, scheme and valuation
// date.
//
// `normalizeMpfSubfunds`, which reads the stored sub-funds out of the
// attribute value, is a parameter; so is `Number()`. The valuation date
// arrives as the ISO text `toIsoDate` made of the picked date.

module MpfAssetEditor {
  import opened Wrappers
  import opened Strings
  import opened JsonModel
  import opened PanoramaAssetAttributes
  import opened AssetEditorForms

  /** `PanoramaMpfSubfund`. */
  datatype Subfund = Subfund(
    name: string,
    code: Option<string>,
    units: Option<real>,
    nav: Option<real>,
    marketValue: Option<real>,
    allocationPct: Option<real>)

  /** One sub-fund row of the form, as typed. */
  datatype SubfundRow = SubfundRow(name: Option<string>, units: Option<string>)

  /** The form's values when it is submitted. */
  datatype MpfForm = MpfForm(
    symbol: string,
    currency: string,
    name: Option<string>,
    owner: Option<string>,
    trustee: Option<string>,
    scheme: Option<string>,
    valuationDate: Option<string>,
    subfunds: seq<SubfundRow>)

  const MpfClass: string := "MPF"
  const MpfSubClass: string := "MPF Fund"
  const KeyPrefix: string := "name:"

  /** `getSubfundKey`: sub-funds are matched by trimmed, lower-cased name. */
  function SubfundKey(name: string): string {
    KeyPrefix + ToLower(JsTrim(name))
  }

  /** Two names share a key exactly when they agree after trimming and lower-casing. */
  lemma SubfundKeyMatches(a: string, b: string)
    ensures SubfundKey(a) == SubfundKey(b) <==> ToLower(JsTrim(a)) == ToLower(JsTrim(b))
  {
    if SubfundKey(a) == SubfundKey(b) {
      assert SubfundKey(a)[|KeyPrefix|..] == ToLower(JsTrim(a));
      assert SubfundKey(b)[|KeyPrefix|..] == ToLower(JsTrim(b));
    }
  }

  // ---------------------------------------------------------------------
  // cleanSubfunds
  // ---------------------------------------------------------------------

  /** One row of `cleanSubfunds`: dropped when its name is blank. */
  function CleanRow(row: SubfundRow, number: string -> Option<real>): (r: Option<Subfund>)
    ensures r.None? <==> TrimmedText(row.name).None?
    ensures r.Some? ==> r.value == Subfund(TrimmedText(row.name).value, None,
                                           ParseOptionalNumber(row.units, number), None, None, None)
  {
    match TrimmedText(row.name)
    case None => None
    case Some(nameText) => Some(Subfund(nameText, None, ParseOptionalNumber(row.units, number), None, None, None))
  }

  /** A kept sub-fund: a trimmed, non-empty name, and units only when they parse to a non-negative value. */
  predicate IsCleanSubfund(s: Subfund) {
    s.name != "" && IsTrimmed(s.name, true)
    && s.code.None? && s.nav.None? && s.marketValue.None? && s.allocationPct.None?
    && (s.units.Some? ==> s.units.value >= 0.0)
  }

  /** `cleanSubfunds`: each row cleaned, the blank ones dropped, the order kept. */
  function CleanSubfunds(rows: seq<SubfundRow>, number: string -> Option<real>): (r: seq<Subfund>)
    ensures |r| <= |rows|
    ensures forall i :: 0 <= i < |r| ==> IsCleanSubfund(r[i])
  {
    if rows == [] then []
    else
      var rest := CleanSubfunds(rows[1..], number);
      match CleanRow(rows[0], number)
      case None => rest
      case Some(s) => [s] + rest
  }

  /** Cleaning keeps the order of the rows: it distributes over concatenation. */
  lemma {:induction false} CleanSubfundsAppend(a: seq<SubfundRow>, b: seq<SubfundRow>, number: string -> Option<real>)
    ensures CleanSubfunds(a + b, number) == CleanSubfunds(a, number) + CleanSubfunds(b, number)
  {
    if a == [] {
      assert a + b == b;
    } else {
      assert (a + b)[1..] == a[1..] + b;
      CleanSubfundsAppend(a[1..], b, number);
    }
  }

  /** Every row with a non-blank name yields a sub-fund, and every sub-fund comes from such a row. */
  lemma {:induction false} CleanSubfundsMembers(rows: seq<SubfundRow>, number: string -> Option<real>, s: Subfund)
    ensures s in CleanSubfunds(rows, number) <==> exists i :: 0 <= i < |rows| && CleanRow(rows[i], number) == Some(s)
  {
    if rows != [] {
      CleanSubfundsMembers(rows[1..], number, s);
      if exists i :: 0 <= i < |rows| && CleanRow(rows[i], number) == Some(s) {
        var i :| 0 <= i < |rows| && CleanRow(rows[i], number) == Some(s);
        if i > 0 {
          assert rows[1..][i - 1] == rows[i];
        }
      }
      if exists i :: 0 <= i < |rows[1..]| && CleanRow(rows[1..][i], number) == Some(s) {
        var i :| 0 <= i < |rows[1..]| && CleanRow(rows[1..][i], number) == Some(s);
        assert rows[i + 1] == rows[1..][i];
      }
    }
  }

  // ---------------------------------------------------------------------
  // Merging with the stored sub-funds
  // ---------------------------------------------------------------------

  /**
   * `new Map(existing.map(s => [getSubfundKey(s), s])).get(key)`: the last
   * stored sub-fund with that key, since a later entry replaces an earlier
   * one.
   */
  function ExistingFor(existing: seq<Subfund>, key: string): Option<Subfund> {
    if existing == [] then None
    else if SubfundKey(existing[|existing| - 1].name) == key then Some(existing[|existing| - 1])
    else ExistingFor(existing[..|existing| - 1], key)
  }

  /** No stored sub-fund is found for a key iff none has it. */
  lemma {:induction false} ExistingForNone(existing: seq<Subfund>, key: string)
    ensures ExistingFor(existing, key).None? <==> NoneWithKey(existing, key)
  {
    if existing != [] {
      var n := |existing| - 1;
      var init := existing[..n];
      ExistingForNone(init, key);
      assert existing == init + [existing[n]];
      NoneWithKeySnoc(init, existing[n], key);
    }
  }

  /** One more stored sub-fund: still none with the key iff none before and not this one. */
  lemma NoneWithKeySnoc(init: seq<Subfund>, last: Subfund, key: string)
    ensures NoneWithKey(init + [last], key) <==> NoneWithKey(init, key) && SubfundKey(last.name) != key
  {
    var all := init + [last];
    assert forall j :: 0 <= j < |init| ==> all[j] == init[j];
    assert all[|init|] == last;
  }

  /** No stored sub-fund has the key. */
  predicate NoneWithKey(existing: seq<Subfund>, key: string) {
    forall j :: 0 <= j < |existing| ==> SubfundKey(existing[j].name) != key
  }

  /** The stored sub-fund found for a key is the last one with that key. */
  lemma {:induction false} ExistingForIsLastMatch(existing: seq<Subfund>, key: string)
    requires ExistingFor(existing, key).Some?
    ensures exists i :: 0 <= i < |existing| && existing[i] == ExistingFor(existing, key).value
                        && SubfundKey(existing[i].name) == key && LastWithKey(existing, key, i)
  {
    var n := |existing| - 1;
    var init := existing[..n];
    if SubfundKey(existing[n].name) == key {
      assert LastWithKey(existing, key, n);
    } else {
      ExistingForIsLastMatch(init, key);
      var i :| 0 <= i < |init| && init[i] == ExistingFor(init, key).value
               && SubfundKey(init[i].name) == key && LastWithKey(init, key, i);
      LastWithKeyExtends(existing, key, i);
      assert existing[i] == init[i];
    }
  }

  /** A later sub-fund without the key keeps index `i` the last one with it. */
  lemma LastWithKeyExtends(existing: seq<Subfund>, key: string, i: nat)
    requires i < |existing| - 1
    requires LastWithKey(existing[..|existing| - 1], key, i)
    requires SubfundKey(existing[|existing| - 1].name) != key
    ensures LastWithKey(existing, key, i)
  {
    var n := |existing| - 1;
    forall j | i < j < |existing| ensures SubfundKey(existing[j].name) != key {
      if j < n {
        assert existing[j] == existing[..n][j];
      }
    }
  }

  /** No stored sub-fund after index `i` has the key. */
  predicate LastWithKey(existing: seq<Subfund>, key: string, i: nat) {
    forall j :: i < j < |existing| ==> SubfundKey(existing[j].name) != key
  }

  /**
   * One merged sub-fund: the cleaned sub-fund, with `nav`, `market_value`
   * and `allocation_pct` taken from the stored sub-fund of the same key
   * wherever that one has them.
   */
  function MergeSubfund(s: Subfund, existing: seq<Subfund>): (r: Subfund)
    ensures r.name == s.name && r.code == s.code && r.units == s.units
    ensures var e := ExistingFor(existing, SubfundKey(s.name));
            && r.nav == (if e.Some? && e.value.nav.Some? then e.value.nav else s.nav)
            && r.marketValue == (if e.Some? && e.value.marketValue.Some? then e.value.marketValue else s.marketValue)
            && r.allocationPct == (if e.Some? && e.value.allocationPct.Some? then e.value.allocationPct else s.allocationPct)
  {
    match ExistingFor(existing, SubfundKey(s.name))
    case None => s
    case Some(e) =>
      s.(nav := if e.nav.Some? then e.nav else s.nav,
         marketValue := if e.marketValue.Some? then e.marketValue else s.marketValue,
         allocationPct := if e.allocationPct.Some? then e.allocationPct else s.allocationPct)
  }

  /** `cleanedSubfunds.map(...)`. */
  function MergeSubfunds(cleaned: seq<Subfund>, existing: seq<Subfund>): (r: seq<Subfund>)
    ensures |r| == |cleaned|
    ensures forall i :: 0 <= i < |r| ==> r[i] == MergeSubfund(cleaned[i], existing)
  {
    seq(|cleaned|, i requires 0 <= i < |cleaned| => MergeSubfund(cleaned[i], existing))
  }

  /** A sub-fund with no stored counterpart, or one that is new, is written exactly as cleaned. */
  lemma UnmatchedSubfundIsUnchanged(s: Subfund, existing: seq<Subfund>)
    requires forall j :: 0 <= j < |existing| ==> ToLower(JsTrim(existing[j].name)) != ToLower(JsTrim(s.name))
    ensures MergeSubfund(s, existing) == s
  {
    forall j | 0 <= j < |existing| ensures SubfundKey(existing[j].name) != SubfundKey(s.name) {
      SubfundKeyMatches(existing[j].name, s.name);
    }
    ExistingForNone(existing, SubfundKey(s.name));
  }

  /** The sub-fund as stored in the attributes: its fields in spread order, the absent ones left out. */
  function SubfundJson(s: Subfund): Json {
    JObject([("name", JString(s.name))]
            + (if s.code.Some? then [("code", JString(s.code.value))] else [])
            + (if s.units.Some? then [("units", JNumber(s.units.value))] else [])
            + (if s.nav.Some? then [("nav", JNumber(s.nav.value))] else [])
            + (if s.marketValue.Some? then [("market_value", JNumber(s.marketValue.value))] else [])
            + (if s.allocationPct.Some? then [("allocation_pct", JNumber(s.allocationPct.value))] else []))
  }

  function SubfundsJson(subfunds: seq<Subfund>): Json {
    JArray(seq(|subfunds|, i requires 0 <= i < |subfunds| => SubfundJson(subfunds[i])))
  }

  // ---------------------------------------------------------------------
  // onSubmit
  // ---------------------------------------------------------------------

  /** The attribute edits `onSubmit` makes, in order. */
  function MpfEdits(form: MpfForm, merged: seq<Subfund>): seq<AttributeEdit> {
    [ ("owner", TextValue(form.owner)),
      ("trustee", TextValue(form.trustee)),
      ("mpf_scheme", TextValue(form.scheme)),
      ("valuation_date", DateValue(form.valuationDate)),
      ("mpf_subfunds", if |merged| > 0 then Some(SubfundsJson(merged)) else None),
      ("fund_allocation", None) ]
  }

  const MpfKeys: seq<string> := ["owner", "trustee", "mpf_scheme", "valuation_date", "mpf_subfunds", "fund_allocation"]

  /** The edits name the six keys in order. */
  lemma MpfEditKeys(form: MpfForm, merged: seq<Subfund>)
    ensures |MpfEdits(form, merged)| == 6
    ensures forall i :: 0 <= i < 6 ==> MpfEdits(form, merged)[i].0 == MpfKeys[i]
  {
  }

  /**
   * The attribute object written back: owner, trustee, scheme, valuation
   * date and sub-funds are set when given and deleted otherwise, the legacy
   * `fund_allocation` is always deleted, and every other key is kept.
   */
  lemma MpfAttributesByKey(existing: Attributes, form: MpfForm, merged: seq<Subfund>, key: string)
    ensures var next := ApplyEdits(existing, MpfEdits(form, merged));
            && Lookup(next, "owner") == TextValue(form.owner)
            && Lookup(next, "trustee") == TextValue(form.trustee)
            && Lookup(next, "mpf_scheme") == TextValue(form.scheme)
            && Lookup(next, "valuation_date") == DateValue(form.valuationDate)
            && (Lookup(next, "mpf_subfunds").Some? <==> |merged| > 0)
            && Lookup(next, "fund_allocation") == None
            && (key !in MpfKeys ==> Lookup(next, key) == Lookup(existing, key))
  {
    var edits := MpfEdits(form, merged);
    MpfEditKeys(form, merged);
    assert DistinctKeys(edits) by {
      assert forall i, j :: 0 <= i < j < 6 ==> MpfKeys[i] != MpfKeys[j];
    }
    EditedKeyLookup(existing, edits, 0);
    EditedKeyLookup(existing, edits, 1);
    EditedKeyLookup(existing, edits, 2);
    EditedKeyLookup(existing, edits, 3);
    EditedKeyLookup(existing, edits, 4);
    EditedKeyLookup(existing, edits, 5);
    if key !in MpfKeys {
      UneditedKeyLookup(existing, edits, key);
    }
  }

  /** The attribute rewrite of `onSubmit`, assignment by assignment. */
  method NextMpfAttributes(existing: Attributes, form: MpfForm, merged: seq<Subfund>) returns (next: Attributes)
    ensures next == ApplyEdits(existing, MpfEdits(form, merged))
  {
    ghost var done: seq<AttributeEdit> := [];
    next := PutText(existing, "owner", form.owner);
    ApplyEditsSnoc(existing, done, ("owner", TextValue(form.owner)));
    done := done + [("owner", TextValue(form.owner))];
    next := PutText(next, "trustee", form.trustee);
    ApplyEditsSnoc(existing, done, ("trustee", TextValue(form.trustee)));
    done := done + [("trustee", TextValue(form.trustee))];
    next := PutText(next, "mpf_scheme", form.scheme);
    ApplyEditsSnoc(existing, done, ("mpf_scheme", TextValue(form.scheme)));
    done := done + [("mpf_scheme", TextValue(form.scheme))];
    next := PutDate(next, "valuation_date", form.valuationDate);
    ApplyEditsSnoc(existing, done, ("valuation_date", DateValue(form.valuationDate)));
    done := done + [("valuation_date", DateValue(form.valuationDate))];
    var subfunds := if |merged| > 0 then Some(SubfundsJson(merged)) else None;
    if |merged| > 0 {
      next := SetField(next, "mpf_subfunds", SubfundsJson(merged));
    } else {
      next := RemoveField(next, "mpf_subfunds");
    }
    ApplyEditsSnoc(existing, done, ("mpf_subfunds", subfunds));
    done := done + [("mpf_subfunds", subfunds)];
    next := RemoveField(next, "fund_allocation");
    ApplyEditsSnoc(existing, done, ("fund_allocation", None));
    done := done + [("fund_allocation", None)];
    assert done == MpfEdits(form, merged);
  }

  /**
   * `onSubmit`: the stored sub-funds are read through
   * `normalizeSubfunds`, the typed rows cleaned and merged with them, the
   * attributes rewritten, and the request formed for an MPF asset.
   */
  method SubmitMpfAsset(mode: Mode, asset: Option<Asset>, form: MpfForm, parseJson: string -> Option<Json>,
                        number: string -> Option<real>, normalizeSubfunds: Option<Json> -> seq<Subfund>)
    returns (r: Submission)
    ensures var existing := ExistingAttributes(mode, asset, parseJson);
            var merged := MergeSubfunds(CleanSubfunds(form.subfunds, number),
                                        normalizeSubfunds(Lookup(existing, "mpf_subfunds")));
            r == Submit(mode, asset, form.symbol, form.currency, form.name,
                        ApplyEdits(existing, MpfEdits(form, merged)), MpfClass, MpfSubClass)
  {
    var existing := ExistingAttributes(mode, asset, parseJson);
    var existingSubfunds := normalizeSubfunds(Lookup(existing, "mpf_subfunds"));
    var cleaned := CleanSubfunds(form.subfunds, number);
    var merged := MergeSubfunds(cleaned, existingSubfunds);
    var next := NextMpfAttributes(existing, form, merged);
    r := Submit(mode, asset, form.symbol, form.currency, form.name, next, MpfClass, MpfSubClass);
  }

  /** Submitting never writes the legacy allocation, and a blank symbol or currency sends no request. */
  lemma SubmittedMpfAttributesDropAllocation(mode: Mode, asset: Option<Asset>, form: MpfForm,
                                             existing: Attributes, merged: seq<Subfund>)
    ensures var r := Submit(mode, asset, form.symbol, form.currency, form.name,
                            ApplyEdits(existing, MpfEdits(form, merged)), MpfClass, MpfSubClass);
            && (r.CreateAsset? ==> Lookup(r.create.attributes, "fund_allocation").None?
                                   && r.create.assetClass == MpfClass && r.create.assetSubClass == MpfSubClass)
            && (r.UpdateAsset? ==> Lookup(r.update.attributes, "fund_allocation").None?)
            && (JsTrim(form.symbol) == "" || JsTrim(form.currency) == "" ==> r.FieldError?)
  {
    MpfAttributesByKey(existing, form, merged, "fund_allocation");
  }
}
