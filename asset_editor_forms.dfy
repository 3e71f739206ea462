// What the MPF asset and insurance policy editor sheets have in common:
// reading an optional number from a text box, rewriting the attribute object
// key by key, and turning the submitted form into a create or update request.
//
// `Number()` is a parameter that yields a finite value or `None` (for `NaN`
// and the infinities); `JSON.stringify` of the attributes is not modelled,
// the request carries the attribute object itself.

module AssetEditorForms {
  import opened Wrappers
  import opened Strings
  import opened JsonModel
  import opened PanoramaAssetAttributes

  /**
   * `parseOptionalNumber`: a missing or blank text, a text `Number()` cannot
   * read as a finite value, and a negative value all give `undefined`.
   */
  function ParseOptionalNumber(value: Option<string>, number: string -> Option<real>): (r: Option<real>)
    ensures r.Some? <==> value.Some? && JsTrim(value.value) != ""
                         && number(JsTrim(value.value)).Some? && number(JsTrim(value.value)).value >= 0.0
    ensures r.Some? ==> r == number(JsTrim(value.value))
  {
    match value
    case None => None
    case Some(text) =>
      if text == "" then None
      else
        var normalized := JsTrim(text);
        if normalized == "" then None
        else
          match number(normalized)
          case None => None
          case Some(parsed) => if parsed < 0.0 then None else Some(parsed)
  }

  /** Whitespace around the text never changes what it reads as. */
  lemma ParseOptionalNumberIgnoresPadding(text: string, number: string -> Option<real>)
    ensures ParseOptionalNumber(Some(JsTrim(text)), number) == ParseOptionalNumber(Some(text), number)
  {
    TrimIdempotent(text, true);
  }

  /** `value?.trim()` kept only when the trimmed text is non-empty. */
  function TrimmedText(value: Option<string>): (r: Option<string>)
    ensures r.Some? ==> r.value != "" && IsTrimmed(r.value, true)
    ensures r.None? <==> value.None? || JsTrim(value.value) == ""
  {
    match value
    case None => None
    case Some(text) =>
      TrimShape(text, true);
      if JsTrim(text) == "" then None else Some(JsTrim(text))
  }

  /** The JSON string for a trimmed text, if any. */
  function TextValue(value: Option<string>): Option<Json> {
    match TrimmedText(value)
    case None => None
    case Some(text) => Some(JString(text))
  }

  /** The JSON number for a parsed value, if any. */
  function NumberValue(value: Option<real>): Option<Json> {
    match value
    case None => None
    case Some(n) => Some(JNumber(n))
  }

  // ---------------------------------------------------------------------
  // Attribute edits
  // ---------------------------------------------------------------------

  /** One edit of the attribute object: `Some(v)` assigns the key, `None` deletes it. */
  type AttributeEdit = (string, Option<Json>)

  /** `target[key] = value` or `delete target[key]`. */
  function Put(fields: Attributes, edit: AttributeEdit): Attributes {
    match edit.1
    case Some(v) => SetField(fields, edit.0, v)
    case None => RemoveField(fields, edit.0)
  }

  /** The edits applied in order to a copy of the existing attributes. */
  function ApplyEdits(fields: Attributes, edits: seq<AttributeEdit>): Attributes
    decreases |edits|
  {
    if edits == [] then fields else ApplyEdits(Put(fields, edits[0]), edits[1..])
  }

  /** The last edit of `key`, if any. */
  function LastEdit(edits: seq<AttributeEdit>, key: string): Option<Option<Json>> {
    if edits == [] then None
    else if edits[|edits| - 1].0 == key then Some(edits[|edits| - 1].1)
    else LastEdit(edits[..|edits| - 1], key)
  }

  lemma PutLookup(fields: Attributes, edit: AttributeEdit, key: string)
    ensures Lookup(Put(fields, edit), key) == if key == edit.0 then edit.1 else Lookup(fields, key)
  {
    match edit.1
    case Some(v) => SetFieldLookup(fields, edit.0, v, key);
    case None => RemoveFieldLookup(fields, edit.0, key);
  }

  /**
   * After the edits a key reads as its last edit left it, and a key no edit
   * names reads as it did before.
   */
  lemma {:induction false} ApplyEditsLookup(fields: Attributes, edits: seq<AttributeEdit>, key: string)
    ensures Lookup(ApplyEdits(fields, edits), key)
            == match LastEdit(edits, key)
               case Some(v) => v
               case None => Lookup(fields, key)
    decreases |edits|
  {
    if edits != [] {
      PutLookup(fields, edits[0], key);
      ApplyEditsLookup(Put(fields, edits[0]), edits[1..], key);
      LastEditOfCons(edits, key);
    }
  }

  lemma {:induction false} LastEditOfCons(edits: seq<AttributeEdit>, key: string)
    requires edits != []
    ensures LastEdit(edits, key)
            == match LastEdit(edits[1..], key)
               case Some(v) => Some(v)
               case None => if edits[0].0 == key then Some(edits[0].1) else None
    decreases |edits|
  {
    var n := |edits| - 1;
    if n > 0 && edits[n].0 != key {
      assert edits[1..][..n - 1] == edits[..n][1..];
      LastEditOfCons(edits[..n], key);
    }
  }

  /** Each key is edited at most once. */
  predicate DistinctKeys(edits: seq<AttributeEdit>) {
    forall i, j :: 0 <= i < j < |edits| ==> edits[i].0 != edits[j].0
  }

  /** With each key edited once, the key of edit `i` reads as that edit left it. */
  lemma EditedKeyLookup(fields: Attributes, edits: seq<AttributeEdit>, i: nat)
    requires i < |edits| && DistinctKeys(edits)
    ensures Lookup(ApplyEdits(fields, edits), edits[i].0) == edits[i].1
  {
    ApplyEditsLookup(fields, edits, edits[i].0);
    LastEditAt(edits, i);
  }

  /** A key that no edit names reads as it did before. */
  lemma UneditedKeyLookup(fields: Attributes, edits: seq<AttributeEdit>, key: string)
    requires forall i :: 0 <= i < |edits| ==> edits[i].0 != key
    ensures Lookup(ApplyEdits(fields, edits), key) == Lookup(fields, key)
  {
    ApplyEditsLookup(fields, edits, key);
    LastEditNone(edits, key);
  }

  lemma {:induction false} LastEditAt(edits: seq<AttributeEdit>, i: nat)
    requires i < |edits|
    requires forall j :: i < j < |edits| ==> edits[j].0 != edits[i].0
    ensures LastEdit(edits, edits[i].0) == Some(edits[i].1)
  {
    var n := |edits| - 1;
    if i < n {
      LastEditAt(edits[..n], i);
    }
  }

  lemma {:induction false} LastEditNone(edits: seq<AttributeEdit>, key: string)
    requires forall i :: 0 <= i < |edits| ==> edits[i].0 != key
    ensures LastEdit(edits, key) == None
  {
    if edits != [] {
      LastEditNone(edits[..|edits| - 1], key);
    }
  }

  /** Applying one more edit is `Put` on the attributes so far: the edits run in list order. */
  lemma {:induction false} ApplyEditsSnoc(fields: Attributes, edits: seq<AttributeEdit>, edit: AttributeEdit)
    ensures ApplyEdits(fields, edits + [edit]) == Put(ApplyEdits(fields, edits), edit)
    decreases |edits|
  {
    if edits == [] {
      assert edits + [edit] == [edit];
      assert [edit][1..] == [];
    } else {
      assert (edits + [edit])[1..] == edits[1..] + [edit];
      ApplyEditsSnoc(Put(fields, edits[0]), edits[1..], edit);
    }
  }

  /** `if (value) target[key] = value; else delete target[key];` on strings. */
  function DateValue(valuationDate: Option<string>): Option<Json> {
    if valuationDate.Some? && valuationDate.value != "" then Some(JString(valuationDate.value)) else None
  }

  /** `if (text) target[key] = text; else delete target[key];` for a trimmed text field. */
  method PutText(fields: Attributes, key: string, value: Option<string>) returns (r: Attributes)
    ensures r == Put(fields, (key, TextValue(value)))
  {
    var text := TrimmedText(value);
    if text.Some? {
      r := SetField(fields, key, JString(text.value));
    } else {
      r := RemoveField(fields, key);
    }
  }

  /** `if (valuationDate) target[key] = valuationDate; else delete target[key];`. */
  method PutDate(fields: Attributes, key: string, valuationDate: Option<string>) returns (r: Attributes)
    ensures r == Put(fields, (key, DateValue(valuationDate)))
  {
    if valuationDate.Some? && valuationDate.value != "" {
      r := SetField(fields, key, JString(valuationDate.value));
    } else {
      r := RemoveField(fields, key);
    }
  }

  /** `if (value !== undefined) target[key] = value; else delete target[key];` for a parsed number. */
  method PutNumber(fields: Attributes, key: string, value: Option<real>) returns (r: Attributes)
    ensures r == Put(fields, (key, NumberValue(value)))
  {
    if value.Some? {
      r := SetField(fields, key, JNumber(value.value));
    } else {
      r := RemoveField(fields, key);
    }
  }

  // ---------------------------------------------------------------------
  // Submitting the form
  // ---------------------------------------------------------------------

  datatype Mode = Creating | Editing

  datatype FormField = SymbolField | CurrencyField

  const SymbolRequired: string := "Symbol is required"
  const CurrencyRequired: string := "Currency is required"
  const ManualDataSource: string := "MANUAL"

  /** `CreateAssetPayload`. */
  datatype CreatePayload = CreatePayload(
    symbol: string,
    name: string,
    currency: string,
    dataSource: string,
    notes: string,
    assetClass: string,
    assetSubClass: string,
    attributes: Attributes)

  /** `UpdateAssetProfile`: it carries no currency. */
  datatype UpdatePayload = UpdatePayload(
    symbol: string,
    name: string,
    sectors: string,
    countries: string,
    notes: string,
    assetClass: string,
    assetSubClass: string,
    attributes: Attributes)

  /** What submitting the form does: flag a field, or send one request, or nothing. */
  datatype Submission =
    | FieldError(field: FormField, message: string)
    | CreateAsset(create: CreatePayload)
    | UpdateAsset(update: UpdatePayload)
    | NoRequest

  function OrElse(value: Option<string>, fallback: string): string {
    match value
    case Some(s) => s
    case None => fallback
  }

  /** The attributes `onSubmit` starts from: none when creating, the stored ones when editing. */
  function ExistingAttributes(mode: Mode, asset: Option<Asset>, parseJson: string -> Option<Json>): Attributes {
    if mode.Creating? then []
    else ParseAttributes(if asset.Some? then asset.value.attributes else None, parseJson)
  }

  /**
   * The tail of `onSubmit` shared by both sheets: the trimmed symbol and the
   * trimmed, upper-cased currency must be non-empty; a new asset is created
   * as a manual asset of the given class, while an edit updates the asset
   * being edited, keeping its symbol and, where set, its class, sub-class
   * and name.
   */
  function Submit(mode: Mode, asset: Option<Asset>, symbol: string, currency: string, name: Option<string>,
                  attributes: Attributes, defaultClass: string, defaultSubClass: string): (r: Submission)
    ensures JsTrim(symbol) == "" ==> r == FieldError(SymbolField, SymbolRequired)
    ensures JsTrim(symbol) != "" && JsTrim(currency) == "" ==> r == FieldError(CurrencyField, CurrencyRequired)
    ensures r.CreateAsset? <==> mode.Creating? && JsTrim(symbol) != "" && JsTrim(currency) != ""
    ensures r.UpdateAsset? <==> mode.Editing? && asset.Some? && JsTrim(symbol) != "" && JsTrim(currency) != ""
    ensures r.CreateAsset? ==>
              && r.create.symbol == JsTrim(symbol)
              && r.create.name == OrElse(TrimmedText(name), JsTrim(symbol))
              && r.create.currency == ToUpper(JsTrim(currency))
              && r.create.dataSource == ManualDataSource && r.create.notes == ""
              && r.create.assetClass == defaultClass && r.create.assetSubClass == defaultSubClass
              && r.create.attributes == attributes
    ensures r.UpdateAsset? ==>
              && r.update.symbol == asset.value.symbol
              && r.update.name == OrElse(TrimmedText(name), OrElse(asset.value.name, asset.value.symbol))
              && r.update.assetClass == OrElse(asset.value.assetClass, defaultClass)
              && r.update.assetSubClass == OrElse(asset.value.assetSubClass, defaultSubClass)
              && r.update.attributes == attributes
  {
    var normalizedName := TrimmedText(name);
    var normalizedSymbol := JsTrim(symbol);
    var normalizedCurrency := ToUpper(JsTrim(currency));
    assert normalizedCurrency == "" <==> JsTrim(currency) == "";
    if normalizedSymbol == "" then FieldError(SymbolField, SymbolRequired)
    else if normalizedCurrency == "" then FieldError(CurrencyField, CurrencyRequired)
    else if mode == Creating then
      CreateAsset(CreatePayload(normalizedSymbol, OrElse(normalizedName, normalizedSymbol), normalizedCurrency,
                                ManualDataSource, "", defaultClass, defaultSubClass, attributes))
    else if asset.None? then NoRequest
    else
      var a := asset.value;
      UpdateAsset(UpdatePayload(a.symbol, OrElse(normalizedName, OrElse(a.name, a.symbol)),
                                OrElse(a.sectors, ""), OrElse(a.countries, ""), OrElse(a.notes, ""),
                                OrElse(a.assetClass, defaultClass), OrElse(a.assetSubClass, defaultSubClass),
                                attributes))
  }

  /** A created asset always gets a non-blank, trimmed name and symbol, and an upper-cased currency. */
  lemma CreatedAssetIsWellFormed(mode: Mode, asset: Option<Asset>, symbol: string, currency: string,
                                 name: Option<string>, attributes: Attributes, defaultClass: string,
                                 defaultSubClass: string)
    requires Submit(mode, asset, symbol, currency, name, attributes, defaultClass, defaultSubClass).CreateAsset?
    ensures var p := Submit(mode, asset, symbol, currency, name, attributes, defaultClass, defaultSubClass).create;
            && p.symbol != "" && IsTrimmed(p.symbol, true)
            && p.name != "" && IsTrimmed(p.name, true)
            && p.currency != "" && ToUpper(p.currency) == p.currency
  {
    TrimShape(symbol, true);
    var c := ToUpper(JsTrim(currency));
    forall i | 0 <= i < |c| ensures ToUpper(c)[i] == c[i] {
      UpperCharIdempotent(JsTrim(currency)[i]);
    }
  }

  lemma UpperCharIdempotent(c: char)
    ensures UpperChar(UpperChar(c)) == UpperChar(c)
  {
  }

  /**
   * An edit whose name box is left blank keeps the stored name even when it
   * is the empty string: only a missing name falls back to the symbol.
   */
  lemma BlankEditKeepsStoredName(asset: Asset, symbol: string, currency: string, attributes: Attributes,
                                 defaultClass: string, defaultSubClass: string)
    requires JsTrim(symbol) != "" && JsTrim(currency) != ""
    requires asset.name == Some("")
    ensures Submit(Editing, Some(asset), symbol, currency, Some(" "), attributes, defaultClass, defaultSubClass).update.name == ""
  {
    assert JsTrim(" ") == "" by {
      TrimShape(" ", true);
    }
  }
}
