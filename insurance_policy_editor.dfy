// The insurance policy editor sheet: the form is filled from the asset's
// stored attributes, and on submit the owner, provider, valuation date and
// the two cash-flow figures are written back into the attribute object.
//
// `new Date(text)` is a parameter that yields the date's time value, or
// `None` where it is `NaN`; `Number.prototype.toString` is a parameter too.
// As in the MPF sheet, the valuation date arrives at submit as the ISO text
// `toIsoDate` made of the picked date.

module InsurancePolicyEditor {
  import opened Wrappers
  import opened Strings
  import opened JsonModel
  import opened PanoramaAssetAttributes
  import opened AssetEditorForms

  /**
   * The values `buildDefaults` puts into the form. `owner` is whatever the
   * stored attribute holds (`attributes.owner ?? ""` keeps any JSON value),
   * and so is `provider` when it falls back to the trustee.
   */
  datatype PolicyDefaults = PolicyDefaults(
    symbol: string,
    currency: string,
    name: string,
    owner: Json,
    provider: Json,
    valuationDate: Option<int>,
    totalPaidToDate: string,
    withdrawableValue: string)

  /** The form's values when it is submitted. */
  datatype PolicyForm = PolicyForm(
    symbol: string,
    currency: string,
    name: Option<string>,
    owner: Option<string>,
    provider: Option<string>,
    valuationDate: Option<string>,
    totalPaidToDate: Option<string>,
    withdrawableValue: Option<string>)

  const DefaultCurrency: string := "HKD"
  const InsuranceClass: string := "Insurance"
  const PolicySubClass: string := "Policy"

  // ---------------------------------------------------------------------
  // buildDefaults
  // ---------------------------------------------------------------------

  /** JavaScript's `value ?? fallback`: the fallback for a missing value or `null`. */
  function Nullish(value: Option<Json>, fallback: Json): (r: Json)
    ensures value.Some? && !value.value.JNull? ==> r == value.value
    ensures value.None? || value.value.JNull? ==> r == fallback
  {
    match value
    case None => fallback
    case Some(JNull) => fallback
    case Some(v) => v
  }

  /** `toDate`: no date for a missing or empty text, nor for one `new Date` cannot read. */
  function ToDate(value: Option<string>, parseDate: string -> Option<int>): (r: Option<int>)
    ensures value.None? || value == Some("") ==> r.None?
    ensures value.Some? && value.value != "" ==> r == parseDate(value.value)
  {
    match value
    case None => None
    case Some(text) => if text == "" then None else parseDate(text)
  }

  /** The stored string, when the attribute holds one. */
  function StringField(attributes: Attributes, key: string): Option<string> {
    match Lookup(attributes, key)
    case Some(JString(s)) => Some(s)
    case _ => None
  }

  /** `value.toString()` when the attribute holds a number, `""` otherwise. */
  function NumberText(attributes: Attributes, key: string, numberText: real -> string): string {
    match Lookup(attributes, key)
    case Some(JNumber(n)) => numberText(n)
    case _ => ""
  }

  /**
   * `buildDefaults`: a blank form in Hong Kong dollars when there is no
   * asset; otherwise the asset's symbol, currency and name, and the fields
   * read from its stored attributes.
   */
  function BuildDefaults(asset: Option<Asset>, parseJson: string -> Option<Json>,
                         parseDate: string -> Option<int>, numberText: real -> string): (r: PolicyDefaults)
    ensures asset.None? ==> r == PolicyDefaults("", DefaultCurrency, "", JString(""), JString(""), None, "", "")
    ensures asset.Some? ==>
              var attrs := ParseAttributes(asset.value.attributes, parseJson);
              && r.symbol == asset.value.symbol
              && r.currency == OrElse(asset.value.currency, DefaultCurrency)
              && r.name == OrElse(asset.value.name, "")
              && r.owner == Nullish(Lookup(attrs, "owner"), JString(""))
              && (StringField(attrs, "insurance_provider").Some? ==>
                    r.provider == JString(StringField(attrs, "insurance_provider").value))
              && (StringField(attrs, "insurance_provider").None? ==>
                    r.provider == Nullish(Lookup(attrs, "trustee"), JString("")))
              && r.valuationDate == ToDate(StringField(attrs, "valuation_date"), parseDate)
              && (r.totalPaidToDate != "" ==> Lookup(attrs, "total_paid_to_date").Some?
                                              && Lookup(attrs, "total_paid_to_date").value.JNumber?)
              && (r.withdrawableValue != "" ==> Lookup(attrs, "withdrawable_value").Some?
                                                && Lookup(attrs, "withdrawable_value").value.JNumber?)
  {
    match asset
    case None => PolicyDefaults("", DefaultCurrency, "", JString(""), JString(""), None, "", "")
    case Some(a) =>
      var attrs := ParseAttributes(a.attributes, parseJson);
      var providerFromAttributes := StringField(attrs, "insurance_provider");
      PolicyDefaults(
        a.symbol,
        OrElse(a.currency, DefaultCurrency),
        OrElse(a.name, ""),
        Nullish(Lookup(attrs, "owner"), JString("")),
        if providerFromAttributes.Some? then JString(providerFromAttributes.value)
        else Nullish(Lookup(attrs, "trustee"), JString("")),
        ToDate(StringField(attrs, "valuation_date"), parseDate),
        NumberText(attrs, "total_paid_to_date", numberText),
        NumberText(attrs, "withdrawable_value", numberText))
  }

  /** A policy stored only with a trustee shows that trustee as its provider. */
  lemma TrusteeStandsInForProvider(asset: Asset, parseJson: string -> Option<Json>,
                                   parseDate: string -> Option<int>, numberText: real -> string, trustee: string)
    requires Lookup(ParseAttributes(asset.attributes, parseJson), "insurance_provider").None?
    requires Lookup(ParseAttributes(asset.attributes, parseJson), "trustee") == Some(JString(trustee))
    ensures BuildDefaults(Some(asset), parseJson, parseDate, numberText).provider == JString(trustee)
  {
  }

  /** A stored number shows as its text; anything else in a cash-flow field shows as blank. */
  lemma CashFlowDefaults(asset: Asset, parseJson: string -> Option<Json>,
                         parseDate: string -> Option<int>, numberText: real -> string)
    ensures var attrs := ParseAttributes(asset.attributes, parseJson);
            var d := BuildDefaults(Some(asset), parseJson, parseDate, numberText);
            && (Lookup(attrs, "total_paid_to_date").Some? && Lookup(attrs, "total_paid_to_date").value.JNumber? ==>
                  d.totalPaidToDate == numberText(Lookup(attrs, "total_paid_to_date").value.n))
            && (Lookup(attrs, "total_paid_to_date").None? || !Lookup(attrs, "total_paid_to_date").value.JNumber? ==>
                  d.totalPaidToDate == "")
            && (Lookup(attrs, "withdrawable_value").Some? && Lookup(attrs, "withdrawable_value").value.JNumber? ==>
                  d.withdrawableValue == numberText(Lookup(attrs, "withdrawable_value").value.n))
            && (Lookup(attrs, "withdrawable_value").None? || !Lookup(attrs, "withdrawable_value").value.JNumber? ==>
                  d.withdrawableValue == "")
  {
  }

  // ---------------------------------------------------------------------
  // onSubmit
  // ---------------------------------------------------------------------

  /** The attribute edits `onSubmit` makes, in order. */
  function PolicyEdits(form: PolicyForm, number: string -> Option<real>): seq<AttributeEdit> {
    [ ("owner", TextValue(form.owner)),
      ("insurance_provider", TextValue(form.provider)),
      ("valuation_date", DateValue(form.valuationDate)),
      ("total_paid_to_date", NumberValue(ParseOptionalNumber(form.totalPaidToDate, number))),
      ("withdrawable_value", NumberValue(ParseOptionalNumber(form.withdrawableValue, number))) ]
  }

  const PolicyKeys: seq<string> := ["owner", "insurance_provider", "valuation_date", "total_paid_to_date", "withdrawable_value"]

  /** The edits name the five keys in order. */
  lemma PolicyEditKeys(form: PolicyForm, number: string -> Option<real>)
    ensures |PolicyEdits(form, number)| == 5
    ensures forall i :: 0 <= i < 5 ==> PolicyEdits(form, number)[i].0 == PolicyKeys[i]
  {
  }

  /**
   * The attribute object written back: owner, provider and valuation date
   * are set when given and deleted otherwise, the two cash-flow figures are
   * set when they parse as non-negative numbers and deleted otherwise, and
   * every other key is kept.
   */
  lemma PolicyAttributesByKey(existing: Attributes, form: PolicyForm, number: string -> Option<real>, key: string)
    ensures var next := ApplyEdits(existing, PolicyEdits(form, number));
            && Lookup(next, "owner") == TextValue(form.owner)
            && Lookup(next, "insurance_provider") == TextValue(form.provider)
            && Lookup(next, "valuation_date") == DateValue(form.valuationDate)
            && Lookup(next, "total_paid_to_date") == NumberValue(ParseOptionalNumber(form.totalPaidToDate, number))
            && Lookup(next, "withdrawable_value") == NumberValue(ParseOptionalNumber(form.withdrawableValue, number))
            && (key !in PolicyKeys ==> Lookup(next, key) == Lookup(existing, key))
  {
    var edits := PolicyEdits(form, number);
    PolicyEditKeys(form, number);
    assert DistinctKeys(edits) by {
      assert forall i, j :: 0 <= i < j < 5 ==> PolicyKeys[i] != PolicyKeys[j];
    }
    EditedKeyLookup(existing, edits, 0);
    EditedKeyLookup(existing, edits, 1);
    EditedKeyLookup(existing, edits, 2);
    EditedKeyLookup(existing, edits, 3);
    EditedKeyLookup(existing, edits, 4);
    if key !in PolicyKeys {
      UneditedKeyLookup(existing, edits, key);
    }
  }

  /** The attribute rewrite of `onSubmit`, assignment by assignment. */
  method NextPolicyAttributes(existing: Attributes, form: PolicyForm, number: string -> Option<real>)
    returns (next: Attributes)
    ensures next == ApplyEdits(existing, PolicyEdits(form, number))
  {
    ghost var done: seq<AttributeEdit> := [];
    next := PutText(existing, "owner", form.owner);
    ApplyEditsSnoc(existing, done, ("owner", TextValue(form.owner)));
    done := done + [("owner", TextValue(form.owner))];
    next := PutText(next, "insurance_provider", form.provider);
    ApplyEditsSnoc(existing, done, ("insurance_provider", TextValue(form.provider)));
    done := done + [("insurance_provider", TextValue(form.provider))];
    next := PutDate(next, "valuation_date", form.valuationDate);
    ApplyEditsSnoc(existing, done, ("valuation_date", DateValue(form.valuationDate)));
    done := done + [("valuation_date", DateValue(form.valuationDate))];
    var totalPaidToDate := ParseOptionalNumber(form.totalPaidToDate, number);
    next := PutNumber(next, "total_paid_to_date", totalPaidToDate);
    ApplyEditsSnoc(existing, done, ("total_paid_to_date", NumberValue(totalPaidToDate)));
    done := done + [("total_paid_to_date", NumberValue(totalPaidToDate))];
    var withdrawableValue := ParseOptionalNumber(form.withdrawableValue, number);
    next := PutNumber(next, "withdrawable_value", withdrawableValue);
    ApplyEditsSnoc(existing, done, ("withdrawable_value", NumberValue(withdrawableValue)));
    done := done + [("withdrawable_value", NumberValue(withdrawableValue))];
    assert done == PolicyEdits(form, number);
  }

  /**
   * `onSubmit`: the attributes are rewritten from the stored ones (none
   * when creating) and the request formed for an insurance policy.
   */
  method SubmitPolicy(mode: Mode, asset: Option<Asset>, form: PolicyForm, parseJson: string -> Option<Json>,
                      number: string -> Option<real>)
    returns (r: Submission)
    ensures r == Submit(mode, asset, form.symbol, form.currency, form.name,
                        ApplyEdits(ExistingAttributes(mode, asset, parseJson), PolicyEdits(form, number)),
                        InsuranceClass, PolicySubClass)
  {
    var existing := ExistingAttributes(mode, asset, parseJson);
    var next := NextPolicyAttributes(existing, form, number);
    r := Submit(mode, asset, form.symbol, form.currency, form.name, next, InsuranceClass, PolicySubClass);
  }

  /**
   * A created policy is a manual Insurance/Policy asset; an edited asset
   * keeps its class and sub-class, falling back to Insurance/Policy.
   */
  lemma SubmittedPolicyClass(mode: Mode, asset: Option<Asset>, form: PolicyForm, attributes: Attributes)
    ensures var r := Submit(mode, asset, form.symbol, form.currency, form.name, attributes,
                            InsuranceClass, PolicySubClass);
            && (r.CreateAsset? ==> r.create.dataSource == "MANUAL"
                                   && r.create.assetClass == "Insurance" && r.create.assetSubClass == "Policy")
            && (r.UpdateAsset? ==> r.update.assetClass == OrElse(asset.value.assetClass, "Insurance")
                                   && r.update.assetSubClass == OrElse(asset.value.assetSubClass, "Policy"))
            && (JsTrim(form.symbol) == "" || JsTrim(form.currency) == "" ==> !r.CreateAsset? && !r.UpdateAsset?)
  {
  }

  // ---------------------------------------------------------------------
  // Filling the form and submitting it unchanged
  // ---------------------------------------------------------------------

  /**
   * Submitting the form as `buildDefaults` filled it keeps a stored owner
   * and provider that are already trimmed text, and writes a trustee that
   * stood in for a missing provider as the policy's `insurance_provider`.
   */
  lemma ResubmittedDefaultsKeepOwnerAndProvider(asset: Asset, parseJson: string -> Option<Json>,
                                                parseDate: string -> Option<int>, numberText: real -> string,
                                                form: PolicyForm, number: string -> Option<real>)
    requires var d := BuildDefaults(Some(asset), parseJson, parseDate, numberText);
             && d.owner.JString? && d.owner.s != "" && IsTrimmed(d.owner.s, true)
             && d.provider.JString? && d.provider.s != "" && IsTrimmed(d.provider.s, true)
             && form.owner == Some(d.owner.s) && form.provider == Some(d.provider.s)
    ensures var d := BuildDefaults(Some(asset), parseJson, parseDate, numberText);
            var next := ApplyEdits(ParseAttributes(asset.attributes, parseJson), PolicyEdits(form, number));
            && Lookup(next, "owner") == Some(d.owner)
            && Lookup(next, "insurance_provider") == Some(d.provider)
  {
    var d := BuildDefaults(Some(asset), parseJson, parseDate, numberText);
    TrimOfTrimmed(d.owner.s, true);
    TrimOfTrimmed(d.provider.s, true);
    PolicyAttributesByKey(ParseAttributes(asset.attributes, parseJson), form, number, "owner");
  }

  /**
   * A stored cash-flow figure survives a resubmission of its own text when
   * it is non-negative and `Number()` reads its text back; a negative
   * figure is shown in the form but deleted on submit.
   */
  lemma ResubmittedTotalPaid(asset: Asset, parseJson: string -> Option<Json>,
                             parseDate: string -> Option<int>, numberText: real -> string,
                             form: PolicyForm, number: string -> Option<real>, n: real)
    requires Lookup(ParseAttributes(asset.attributes, parseJson), "total_paid_to_date") == Some(JNumber(n))
    requires IsTrimmed(numberText(n), true) && numberText(n) != ""
    requires number(numberText(n)) == Some(n)
    requires form.totalPaidToDate == Some(BuildDefaults(Some(asset), parseJson, parseDate, numberText).totalPaidToDate)
    ensures var next := ApplyEdits(ParseAttributes(asset.attributes, parseJson), PolicyEdits(form, number));
            && (n >= 0.0 ==> Lookup(next, "total_paid_to_date") == Some(JNumber(n)))
            && (n < 0.0 ==> Lookup(next, "total_paid_to_date").None?)
  {
    TrimOfTrimmed(numberText(n), true);
    PolicyAttributesByKey(ParseAttributes(asset.attributes, parseJson), form, number, "owner");
  }
}
