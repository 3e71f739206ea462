// The free-form attributes stored on an asset as a JSON text, and the
// classification of assets as insurance policies or MPF funds built on them.
//
// `JSON.parse` is a parameter: it yields the parsed document, or `None` where
// it throws.

module PanoramaAssetAttributes {
  import opened Wrappers
  import opened Strings
  import opened JsonModel

  /** The asset fields the front end reads; a missing field is `None`. */
  datatype Asset = Asset(
    symbol: string,
    name: Option<string>,
    currency: Option<string>,
    assetClass: Option<string>,
    assetSubClass: Option<string>,
    assetType: Option<string>,
    attributes: Option<string>,
    sectors: Option<string>,
    countries: Option<string>,
    notes: Option<string>)

  /** The parsed attribute object, as its fields in order. */
  type Attributes = seq<(string, Json)>

  /** `value?.trim().toLowerCase() ?? ""`. */
  function NormalizeText(value: Option<string>): string {
    match value
    case None => ""
    case Some(s) => ToLower(JsTrim(s))
  }

  /**
   * `parsePanoramaAssetAttributes`: the parsed object, or an empty one when
   * the text is missing or empty, does not parse, or is not a plain object
   * (`null`, an array or a primitive).
   */
  function ParseAttributes(attributes: Option<string>, parseJson: string -> Option<Json>): (r: Attributes)
    ensures attributes.None? || attributes == Some("") ==> r == []
    ensures attributes.Some? && attributes.value != "" ==>
              r == match parseJson(attributes.value)
                   case Some(JObject(fields)) => fields
                   case _ => []
  {
    match attributes
    case None => []
    case Some(text) =>
      if text == "" then []
      else
        match parseJson(text)
        case Some(JObject(fields)) => fields
        case _ => []
  }

  /** The class, sub-class or type text of the asset mentions `word`. */
  predicate TextsMention(asset: Asset, word: string) {
    Contains(NormalizeText(asset.assetClass), word)
    || Contains(NormalizeText(asset.assetSubClass), word)
    || Contains(NormalizeText(asset.assetType), word)
  }

  /**
   * `isInsuranceAsset`: the class texts mention "insurance", or else the
   * attributes carry a truthy `policy_type` or any `guaranteed_value`.
   */
  predicate IsInsuranceAsset(asset: Asset, parseJson: string -> Option<Json>) {
    var attrs := ParseAttributes(asset.attributes, parseJson);
    TextsMention(asset, "insurance")
    || Truthy(Lookup(attrs, "policy_type")) || Lookup(attrs, "guaranteed_value").Some?
  }

  /**
   * `isMpfAsset`: the class texts mention "mpf", or else the attributes
   * carry a truthy `trustee` or `fund_allocation`.
   */
  predicate IsMpfAsset(asset: Asset, parseJson: string -> Option<Json>) {
    var attrs := ParseAttributes(asset.attributes, parseJson);
    TextsMention(asset, "mpf")
    || Truthy(Lookup(attrs, "trustee")) || Truthy(Lookup(attrs, "fund_allocation"))
  }

  /**
   * `getAssetOwner`: the trimmed `owner` when it is a non-empty string after
   * trimming. `owner?.trim()` stops at `null` or `undefined`, and throws on
   * any other value that is not a string.
   */
  function GetAssetOwner(asset: Asset, parseJson: string -> Option<Json>): (r: Result<Option<string>, TypeError>)
    ensures var owner := Lookup(ParseAttributes(asset.attributes, parseJson), "owner");
            && (r.Err? <==> owner.Some? && !owner.value.JNull? && !owner.value.JString?)
            && (r.Ok? && r.value.Some? <==> owner.Some? && owner.value.JString? && JsTrim(owner.value.s) != "")
            && (r.Ok? && r.value.Some? ==> r.value.value == JsTrim(owner.value.s))
  {
    match Lookup(ParseAttributes(asset.attributes, parseJson), "owner")
    case None => Ok(None)
    case Some(JNull) => Ok(None)
    case Some(JString(s)) =>
      var owner := JsTrim(s);
      if owner != "" then Ok(Some(owner)) else Ok(None)
    case Some(_) => Err(TypeError)
  }

  /** A reported owner is never blank and carries no surrounding whitespace. */
  lemma OwnerIsTrimmedAndNonEmpty(asset: Asset, parseJson: string -> Option<Json>)
    requires GetAssetOwner(asset, parseJson).Ok? && GetAssetOwner(asset, parseJson).value.Some?
    ensures var owner := GetAssetOwner(asset, parseJson).value.value;
            owner != "" && IsTrimmed(owner, true)
  {
    var s := Lookup(ParseAttributes(asset.attributes, parseJson), "owner").value.s;
    TrimShape(s, true);
  }

  /**
   * The classification reads the three class texts and four attribute
   * fields and nothing else: two assets that agree on those classify alike.
   */
  lemma ClassifiedByTextsAndFourFields(a: Asset, b: Asset, parseJson: string -> Option<Json>)
    requires NormalizeText(a.assetClass) == NormalizeText(b.assetClass)
    requires NormalizeText(a.assetSubClass) == NormalizeText(b.assetSubClass)
    requires NormalizeText(a.assetType) == NormalizeText(b.assetType)
    requires var x, y := ParseAttributes(a.attributes, parseJson), ParseAttributes(b.attributes, parseJson);
             Lookup(x, "policy_type") == Lookup(y, "policy_type") && Lookup(x, "guaranteed_value") == Lookup(y, "guaranteed_value")
             && Lookup(x, "trustee") == Lookup(y, "trustee") && Lookup(x, "fund_allocation") == Lookup(y, "fund_allocation")
    ensures IsInsuranceAsset(a, parseJson) == IsInsuranceAsset(b, parseJson)
    ensures IsMpfAsset(a, parseJson) == IsMpfAsset(b, parseJson)
  {
  }

  /**
   * Setting any attribute other than `policy_type`, `guaranteed_value`,
   * `trustee` and `fund_allocation` (a cash-flow figure, the owner, the
   * provider) never changes whether an asset is insurance or MPF.
   */
  lemma OtherAttributesNeverMatter(asset: Asset, parseJson: string -> Option<Json>, fields: Attributes,
                                   key: string, value: Json, text: string)
    requires asset.attributes.Some? && asset.attributes.value != ""
    requires parseJson(asset.attributes.value) == Some(JObject(fields))
    requires key != "policy_type" && key != "guaranteed_value" && key != "trustee" && key != "fund_allocation"
    requires text != "" && parseJson(text) == Some(JObject(SetField(fields, key, value)))
    ensures IsInsuranceAsset(asset.(attributes := Some(text)), parseJson) == IsInsuranceAsset(asset, parseJson)
    ensures IsMpfAsset(asset.(attributes := Some(text)), parseJson) == IsMpfAsset(asset, parseJson)
  {
    SetFieldLookup(fields, key, value, "policy_type");
    SetFieldLookup(fields, key, value, "guaranteed_value");
    SetFieldLookup(fields, key, value, "trustee");
    SetFieldLookup(fields, key, value, "fund_allocation");
    ClassifiedByTextsAndFourFields(asset.(attributes := Some(text)), asset, parseJson);
  }

  // ---------------------------------------------------------------------
  // The classification the tests expect
  // ---------------------------------------------------------------------

  /** The attributes hold a figure of the cash-flow fields. */
  predicate HasCashFlowFields(attrs: Attributes) {
    Lookup(attrs, "total_paid_to_date").Some? || Lookup(attrs, "withdrawable_value").Some?
  }

  /**
   * The insurance test the classification tests describe: what the code
   * accepts, and also a legacy asset that is not MPF but carries cash-flow
   * figures.
   */
  predicate IsInsuranceAssetIntended(asset: Asset, parseJson: string -> Option<Json>) {
    IsInsuranceAsset(asset, parseJson)
    || (HasCashFlowFields(ParseAttributes(asset.attributes, parseJson)) && !IsMpfAsset(asset, parseJson))
  }

  /**
   * The intended test widens the code's only by legacy cash-flow assets:
   * every asset the code calls insurance stays insurance, and an MPF asset
   * the code keeps out of the insurance list stays out.
   */
  lemma IntendedWidensOnlyByCashFlows(asset: Asset, parseJson: string -> Option<Json>)
    ensures IsInsuranceAsset(asset, parseJson) ==> IsInsuranceAssetIntended(asset, parseJson)
    ensures IsInsuranceAssetIntended(asset, parseJson) && !IsInsuranceAsset(asset, parseJson)
            ==> HasCashFlowFields(ParseAttributes(asset.attributes, parseJson)) && !IsMpfAsset(asset, parseJson)
    ensures IsMpfAsset(asset, parseJson) && !IsInsuranceAsset(asset, parseJson) ==> !IsInsuranceAssetIntended(asset, parseJson)
  {
  }

  // ---------------------------------------------------------------------
  // Classification examples
  // ---------------------------------------------------------------------

  /** The normalized text of a literal that has no surrounding whitespace. */
  lemma NormalizedLiteral(s: string, lowered: string)
    requires IsTrimmed(s, true)
    requires lowered == ToLower(s)
    ensures NormalizeText(Some(s)) == lowered
  {
    TrimOfTrimmed(s, true);
  }

  const MpfCashFlowAttributes: Attributes := [
    ("total_paid_to_date", JNumber(10000.0)),
    ("withdrawable_value", JNumber(12000.0)),
    ("trustee", JString("Manulife"))
  ]

  const InsuranceCashFlowAttributes: Attributes := [
    ("insurance_provider", JString("AIA")),
    ("total_paid_to_date", JNumber(8000.0)),
    ("withdrawable_value", JNumber(7800.0))
  ]

  const CashFlowOnlyAttributes: Attributes := [
    ("total_paid_to_date", JNumber(5000.0)),
    ("withdrawable_value", JNumber(4200.0))
  ]

  /** The asset of the classification tests: only the class and the attributes vary. */
  predicate IsTestAsset(asset: Asset, assetClass: Option<string>, fields: Attributes, parseJson: string -> Option<Json>) {
    && asset.assetClass == assetClass && asset.assetSubClass.None? && asset.assetType.None?
    && asset.attributes.Some? && asset.attributes.value != ""
    && parseJson(asset.attributes.value) == Some(JObject(fields))
  }

  /** An MPF-class asset with a trustee is an MPF asset, and its cash-flow fields do not make it insurance. */
  lemma MpfAssetWithCashFlowsExample(asset: Asset, parseJson: string -> Option<Json>)
    requires IsTestAsset(asset, Some("MPF"), MpfCashFlowAttributes, parseJson)
    ensures IsMpfAsset(asset, parseJson)
    ensures !IsInsuranceAsset(asset, parseJson)
  {
    NormalizedLiteral("MPF", "mpf");
    assert Contains("mpf", "mpf");
    assert !Contains("mpf", "insurance");
    assert !Contains("", "insurance");
    assert Lookup(MpfCashFlowAttributes, "policy_type").None?;
    assert Lookup(MpfCashFlowAttributes, "guaranteed_value").None?;
  }

  /** An Insurance-class asset with a provider is insurance and not MPF. */
  lemma InsuranceAssetWithProviderExample(asset: Asset, parseJson: string -> Option<Json>)
    requires IsTestAsset(asset, Some("Insurance"), InsuranceCashFlowAttributes, parseJson)
    ensures IsInsuranceAsset(asset, parseJson)
    ensures !IsMpfAsset(asset, parseJson)
  {
    NormalizedLiteral("Insurance", "insurance");
    InsuranceWordFacts();
    InsuranceCashFlowHasNoMpfFields();
  }

  lemma InsuranceWordFacts()
    ensures Contains("insurance", "insurance") && !Contains("insurance", "mpf") && !Contains("", "mpf")
  {
    assert OccursAt("insurance", "insurance", 0);
    NotContainedWithoutFirst("insurance", "mpf");
  }

  lemma InsuranceCashFlowHasNoMpfFields()
    ensures Lookup(InsuranceCashFlowAttributes, "trustee").None?
    ensures Lookup(InsuranceCashFlowAttributes, "fund_allocation").None?
  {
  }

  /**
   * An asset with no class texts whose attributes hold only cash-flow
   * fields is neither insurance nor MPF: cash-flow fields play no part in
   * the classification.
   */
  lemma CashFlowOnlyAssetIsUnclassified(asset: Asset, parseJson: string -> Option<Json>)
    requires IsTestAsset(asset, None, CashFlowOnlyAttributes, parseJson)
    ensures !IsInsuranceAsset(asset, parseJson)
    ensures !IsMpfAsset(asset, parseJson)
  {
    assert !Contains("", "insurance");
    assert !Contains("", "mpf");
    assert Lookup(CashFlowOnlyAttributes, "policy_type").None?;
    assert Lookup(CashFlowOnlyAttributes, "guaranteed_value").None?;
    assert Lookup(CashFlowOnlyAttributes, "trustee").None?;
    assert Lookup(CashFlowOnlyAttributes, "fund_allocation").None?;
  }

  /** The intended test meets all three classification tests, the cash-flow-only one included. */
  lemma IntendedMeetsClassificationTests(mpf: Asset, insurance: Asset, legacy: Asset, parseJson: string -> Option<Json>)
    requires IsTestAsset(mpf, Some("MPF"), MpfCashFlowAttributes, parseJson)
    requires IsTestAsset(insurance, Some("Insurance"), InsuranceCashFlowAttributes, parseJson)
    requires IsTestAsset(legacy, None, CashFlowOnlyAttributes, parseJson)
    ensures IsMpfAsset(mpf, parseJson) && !IsInsuranceAssetIntended(mpf, parseJson)
    ensures IsInsuranceAssetIntended(insurance, parseJson) && !IsMpfAsset(insurance, parseJson)
    ensures IsInsuranceAssetIntended(legacy, parseJson) && !IsMpfAsset(legacy, parseJson)
  {
    MpfAssetWithCashFlowsExample(mpf, parseJson);
    InsuranceAssetWithProviderExample(insurance, parseJson);
    CashFlowOnlyAssetIsUnclassified(legacy, parseJson);
    assert Lookup(CashFlowOnlyAttributes, "total_paid_to_date").Some?;
  }
}
