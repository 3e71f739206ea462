/**
 * The `--fix` repairs of the release tool: the updater settings of the
 * Tauri config, and three textual rewrites of the release workflow, each
 * the first match of a regular expression.
 */
module ReleaseFixes {
  import opened Wrappers
  import opened Strings
  import opened JsonModel
  import opened ReleaseBase
  import opened ReleaseValidation

  // ---------------------------------------------------------------------
  // fixTauriUpdaterConfig
  // ---------------------------------------------------------------------

  /** A value `x || {}` can take a property: falsy, an object, or an array. */
  predicate Assignable(v: Option<Json>) {
    !Truthy(v) || v.value.JObject? || v.value.JArray?
  }

  /** A value `x || {}` turns into an object that keeps the property. */
  predicate Mergeable(v: Option<Json>) {
    !Truthy(v) || v.value.JObject?
  }

  /**
   * `config.bundle = config.bundle || {}` then
   * `config.bundle.createUpdaterArtifacts = "v1Compatible"`: the new
   * value of `bundle`. Assigning on a truthy primitive throws.
   */
  function FixedBundle(bundle: Option<Json>): (r: Result<Json, TypeError>)
    ensures r.Ok? <==> Assignable(bundle)
    ensures Mergeable(bundle) ==> r.Ok? && r.value.JObject?
                                  && OptionalMember(Some(r.value), "createUpdaterArtifacts") == Some(JString("v1Compatible"))
    ensures bundle.Some? && bundle.value.JArray? ==> r == Ok(bundle.value)
  {
    var target := OrEmptyObject(bundle);
    if target.JObject? then
      SetFieldLookup(target.fields, "createUpdaterArtifacts", JString("v1Compatible"), "");
      Assign(target, "createUpdaterArtifacts", JString("v1Compatible"))
    else
      Assign(target, "createUpdaterArtifacts", JString("v1Compatible"))
  }

  /**
   * `config.plugins = config.plugins || {}`, then the same for
   * `plugins.updater`, then `updater.endpoints = [UPDATER_ENDPOINT]`: the
   * new value of `plugins`.
   */
  function FixedPlugins(plugins: Option<Json>): (r: Result<Json, TypeError>)
    ensures r.Ok? <==> Assignable(plugins) && Assignable(OptionalMember(plugins, "updater"))
    ensures Mergeable(plugins) && Mergeable(OptionalMember(plugins, "updater")) ==>
              r.Ok? && OptionalMember(OptionalMember(Some(r.value), "updater"), "endpoints")
                       == Some(JArray([JString(UpdaterEndpoint)]))
  {
    var target := OrEmptyObject(plugins);
    assert Member(target, "updater").Ok? && Member(target, "updater").value == OptionalMember(plugins, "updater");
    var updater := OrEmptyObject(Member(target, "updater").value);
    var endpoints := JArray([JString(UpdaterEndpoint)]);
    if updater.JObject? then
      var newUpdater := JObject(SetField(updater.fields, "endpoints", endpoints));
      SetFieldLookup(updater.fields, "endpoints", endpoints, "");
      if target.JObject? then
        SetFieldLookup(target.fields, "updater", newUpdater, "");
        Assign(target, "updater", newUpdater)
      else
        Assign(target, "updater", newUpdater)
    else
      var newUpdater :- Assign(updater, "endpoints", endpoints);
      Assign(target, "updater", newUpdater)
  }

  /**
   * The in-memory part of `fixTauriUpdaterConfig`. Reading a property of
   * `null` or assigning one on a primitive throws; an array takes the
   * properties without serialising them, so it is written back as it was.
   * `plugins` is read from the original fields: assigning `bundle` does
   * not change it.
   */
  function FixUpdaterConfig(config: Json): (r: Result<Json, TypeError>)
    ensures r.Ok? <==> config.JArray?
                       || (config.JObject? && Assignable(Lookup(config.fields, "bundle"))
                           && Assignable(Lookup(config.fields, "plugins"))
                           && Assignable(OptionalMember(Lookup(config.fields, "plugins"), "updater")))
    ensures config.JArray? ==> r == Ok(config)
    ensures r.Ok? && config.JObject? ==> r.value.JObject?
  {
    match config
    case JArray(_) => Ok(config)
    case JObject(fields) =>
      var bundle :- FixedBundle(Lookup(fields, "bundle"));
      var plugins :- FixedPlugins(Lookup(fields, "plugins"));
      Ok(JObject(SetField(SetField(fields, "bundle", bundle), "plugins", plugins)))
    case _ => Err(TypeError)
  }

  /**
   * When `bundle`, `plugins` and `plugins.updater` are each falsy or an
   * object, the repaired config passes both updater checks and every
   * other top-level key keeps its value.
   */
  lemma FixedConfigPassesChecks(config: Json)
    requires config.JObject?
    requires Mergeable(Lookup(config.fields, "bundle")) && Mergeable(Lookup(config.fields, "plugins"))
    requires Mergeable(OptionalMember(Lookup(config.fields, "plugins"), "updater"))
    ensures FixUpdaterConfig(config).Ok? && FixUpdaterConfig(config).value.JObject?
    ensures CheckConfig(FixUpdaterConfig(config).value.fields) == ConfigChecks(true, true)
    ensures forall key :: key != "bundle" && key != "plugins" ==>
              Lookup(FixUpdaterConfig(config).value.fields, key) == Lookup(config.fields, key)
  {
    var fields := config.fields;
    var bundle := FixedBundle(Lookup(fields, "bundle")).value;
    var plugins := FixedPlugins(Lookup(fields, "plugins")).value;
    var withBundle := SetField(fields, "bundle", bundle);
    var result := SetField(withBundle, "plugins", plugins);
    assert FixUpdaterConfig(config) == Ok(JObject(result));
    SetFieldLookup(withBundle, "plugins", plugins, "bundle");
    SetFieldLookup(fields, "bundle", bundle, "plugins");
    forall key | key != "bundle" && key != "plugins"
      ensures Lookup(result, key) == Lookup(fields, key)
    {
      SetFieldLookup(withBundle, "plugins", plugins, key);
      SetFieldLookup(fields, "bundle", bundle, key);
    }
  }

  /**
   * Whenever the repair of an object succeeds, every top-level key other
   * than `bundle` and `plugins` keeps its value; in particular the
   * version the alignment wrote stays.
   */
  lemma FixKeepsOtherKeys(config: Json)
    requires config.JObject? && FixUpdaterConfig(config).Ok?
    ensures FixUpdaterConfig(config).value.JObject?
    ensures forall key :: key != "bundle" && key != "plugins" ==>
              Lookup(FixUpdaterConfig(config).value.fields, key) == Lookup(config.fields, key)
  {
    var fields := config.fields;
    var bundle := FixedBundle(Lookup(fields, "bundle")).value;
    var plugins := FixedPlugins(Lookup(fields, "plugins")).value;
    var withBundle := SetField(fields, "bundle", bundle);
    var result := SetField(withBundle, "plugins", plugins);
    assert FixUpdaterConfig(config) == Ok(JObject(result));
    forall key | key != "bundle" && key != "plugins"
      ensures Lookup(result, key) == Lookup(fields, key)
    {
      SetFieldLookup(withBundle, "plugins", plugins, key);
      SetFieldLookup(fields, "bundle", bundle, key);
    }
  }

  /**
   * A truthy `bundle` array takes the flag as a property that is never
   * written out: the repair succeeds and the artifacts check still fails.
   */
  lemma ArrayBundleStaysUnfixed(config: Json, items: seq<Json>)
    requires config.JObject? && Lookup(config.fields, "bundle") == Some(JArray(items))
    requires FixUpdaterConfig(config).Ok?
    ensures !CheckConfig(FixUpdaterConfig(config).value.fields).artifacts
  {
    var fields := config.fields;
    var plugins := FixedPlugins(Lookup(fields, "plugins")).value;
    var withBundle := SetField(fields, "bundle", JArray(items));
    assert FixUpdaterConfig(config) == Ok(JObject(SetField(withBundle, "plugins", plugins)));
    SetFieldLookup(withBundle, "plugins", plugins, "bundle");
    SetFieldLookup(fields, "bundle", JArray(items), "plugins");
  }

  /** `fixTauriUpdaterConfig`: parse, repair, write the document back. */
  function FixTauriUpdaterConfig(files: FileStore): (r: Result<FileStore, ReleaseError>)
    ensures r.Ok? <==> TauriConfigPath in files && files[TauriConfigPath].Doc?
                       && FixUpdaterConfig(files[TauriConfigPath].json).Ok?
    ensures r.Ok? ==> r.value.Keys == files.Keys && forall p :: p in files && p != TauriConfigPath ==> r.value[p] == files[p]
    ensures r.Ok? ==> r.value[TauriConfigPath] == Doc(FixUpdaterConfig(files[TauriConfigPath].json).value)
  {
    var config :- ReadJson(files, TauriConfigPath);
    match FixUpdaterConfig(config)
    case Err(_) => Err(JsTypeError(TauriConfigPath))
    case Ok(fixed) => Ok(files[TauriConfigPath := Doc(fixed)])
  }

  // ---------------------------------------------------------------------
  // Shared facts about literal occurrences
  // ---------------------------------------------------------------------

  /** An occurrence inside `y` is an occurrence inside `x + y + z`, shifted by `|x|`. */
  lemma OccursShift(x: string, y: string, z: string, w: string, p: int)
    requires OccursAt(y, w, p)
    ensures OccursAt(x + y + z, w, |x| + p)
  {
    var s := x + y + z;
    assert s[|x| + p..|x| + p + |w|] == y[p..p + |w|];
  }

  /** An occurrence in `x` is an occurrence in any extension of `x`. */
  lemma OccursExtend(x: string, z: string, w: string, p: int)
    requires OccursAt(x, w, p)
    ensures OccursAt(x + z, w, p)
  {
    assert (x + z)[p..p + |w|] == x[p..p + |w|];
  }

  /**
   * Replacing `s[m..e]` keeps every occurrence that lies wholly before or
   * wholly after the replaced part.
   */
  lemma SpliceKeepsOccurrence(s: string, m: nat, e: nat, v: string, w: string, p: nat)
    requires m <= e <= |s| && OccursAt(s, w, p) && (p + |w| <= m || e <= p)
    ensures Contains(s[..m] + v + s[e..], w)
  {
    var r := s[..m] + v + s[e..];
    if p + |w| <= m {
      assert r[p..p + |w|] == s[p..p + |w|];
      ContainsWhenOccurs(r, w, p);
    } else {
      var q := p - e + m + |v|;
      assert r[q..q + |w|] == s[p..p + |w|];
      ContainsWhenOccurs(r, w, q);
    }
  }

  /**
   * Inserting text right after a newline keeps every occurrence of a
   * string without newlines: no occurrence straddles the insertion point.
   */
  lemma InsertKeepsOccurrence(s: string, e: nat, ins: string, w: string)
    requires 0 < e <= |s| && s[e - 1] == '\n' && '\n' !in w && Contains(s, w)
    ensures Contains(s[..e] + ins + s[e..], w)
  {
    var p := FindFrom(s, w, 0).value;
    assert forall k :: p <= k < p + |w| ==> s[k] == s[p..p + |w|][k - p] == w[k - p];
    assert e - 1 < p || p + |w| <= e - 1 + 1;
    SpliceKeepsOccurrence(s, e, e, ins, w, p);
  }

  /** The first JavaScript line terminator at or after `from`, or `|s|`. */
  function LineEndFrom(s: string, from: nat): (r: nat)
    requires from <= |s|
    ensures from <= r <= |s|
    ensures r < |s| ==> IsJsLineTerminator(s[r])
    ensures forall k :: from <= k < r ==> !IsJsLineTerminator(s[k])
    decreases |s| - from
  {
    if from == |s| || IsJsLineTerminator(s[from]) then from else LineEndFrom(s, from + 1)
  }

  // ---------------------------------------------------------------------
  // Tag trigger: /tags:\n(?:\s+-\s*".*"\n)+/ -> 'tags:\n      - "v*.*.*"\n'
  // ---------------------------------------------------------------------

  const TagsKey := "tags:\n"
  const TagsIndent := "tags:\n      "

  /** The replacement block: the key and the single canonical trigger. */
  function TagBlockReplacement(): (r: string)
    ensures OccursAt(r, TagTriggerLine, 12)
  {
    var r := TagsIndent + TagTriggerLine + "\n";
    OccursShift(TagsIndent, TagTriggerLine, "\n", TagTriggerLine, 0);
    r
  }

  /**
   * One list item `\s+-\s*".*"\n` starting at `x`: whitespace (at least
   * one, newlines included), a dash, optional whitespace, then a quoted
   * rest of line. `.` stops at line terminators, so the item ends at the
   * first one, which must be a `\n` preceded by a closing quote.
   */
  function TagItemEnd(s: string, x: nat): (r: Option<nat>)
    requires x <= |s|
    ensures r.Some? ==> x < r.value <= |s| && s[r.value - 1] == '\n'
  {
    var w := SkipSpaces(s, x, true);
    if w == x || w == |s| || s[w] != '-' then None
    else
      var y := SkipSpaces(s, w + 1, true);
      if y == |s| || s[y] != '"' then None
      else
        var l := LineEndFrom(s, y + 1);
        if l == |s| || s[l] != '\n' || l < y + 2 || s[l - 1] != '"' then None
        else Some(l + 1)
  }

  /** The greedy repetition: items are taken while the next one matches. */
  function TagItemsEnd(s: string, x: nat): (r: nat)
    requires x <= |s|
    ensures x <= r <= |s|
    ensures TagItemEnd(s, r).None?
    decreases |s| - x
  {
    match TagItemEnd(s, x)
    case None => x
    case Some(y) => TagItemsEnd(s, y)
  }

  /** The end of a tag block whose key is at `i`, if it has at least one item. */
  function TagBlockAt(s: string, i: nat): (r: Option<nat>)
    requires i <= |s|
    ensures r.Some? ==> OccursAt(s, TagsKey, i) && i + 6 < r.value <= |s|
  {
    if OccursAt(s, TagsKey, i) && TagItemEnd(s, i + 6).Some? then
      Some(TagItemsEnd(s, TagItemEnd(s, i + 6).value))
    else None
  }

  /** The leftmost tag block at or after `i`. */
  function TagBlockFrom(s: string, i: nat): (r: Option<(nat, nat)>)
    requires i <= |s|
    ensures r.Some? ==> i <= r.value.0 <= |s| && TagBlockAt(s, r.value.0) == Some(r.value.1)
    ensures r.Some? ==> forall k :: i <= k < r.value.0 ==> TagBlockAt(s, k).None?
    ensures r.None? ==> forall k :: i <= k <= |s| ==> TagBlockAt(s, k).None?
    decreases |s| - i
  {
    if TagBlockAt(s, i).Some? then Some((i, TagBlockAt(s, i).value))
    else if i == |s| then None
    else TagBlockFrom(s, i + 1)
  }

  /**
   * The first tag block is replaced by the canonical one; without a block
   * the text is unchanged.
   */
  function RewriteTagTrigger(s: string): (r: string)
    ensures TagBlockFrom(s, 0).None? ==> r == s
    ensures TagBlockFrom(s, 0).Some? ==> Contains(r, TagTriggerLine)
  {
    match TagBlockFrom(s, 0)
    case None => s
    case Some((i, e)) =>
      OccursShift(s[..i], TagBlockReplacement(), s[e..], TagTriggerLine, 12);
      ContainsWhenOccurs(s[..i] + TagBlockReplacement() + s[e..], TagTriggerLine, i + 12);
      s[..i] + TagBlockReplacement() + s[e..]
  }

  // ---------------------------------------------------------------------
  // Draft flag: /releaseDraft:\s*(true|false)/ -> "releaseDraft: false"
  // ---------------------------------------------------------------------

  const DraftKey := "releaseDraft:"

  /** The end of a draft setting whose key is at `m`. */
  function DraftSettingAt(s: string, m: nat): (r: Option<nat>)
    requires m <= |s|
    ensures r.Some? ==> OccursAt(s, DraftKey, m) && m + 17 <= r.value <= |s| && s[r.value - 1] == 'e'
    ensures r.Some? ==> forall k :: m <= k < r.value ==> s[k] != '"'
  {
    if !OccursAt(s, DraftKey, m) then None
    else
      var k := SkipSpaces(s, m + 13, true);
      assert forall j :: m <= j < m + 13 ==> s[j] == DraftKey[j - m];
      if OccursAt(s, "true", k) then
        assert forall j :: k <= j < k + 4 ==> s[j] == "true"[j - k];
        Some(k + 4)
      else if OccursAt(s, "false", k) then
        assert forall j :: k <= j < k + 5 ==> s[j] == "false"[j - k];
        Some(k + 5)
      else None
  }

  /** The leftmost draft setting at or after `i`. */
  function DraftSettingFrom(s: string, i: nat): (r: Option<(nat, nat)>)
    requires i <= |s|
    ensures r.Some? ==> i <= r.value.0 <= |s| && DraftSettingAt(s, r.value.0) == Some(r.value.1)
    ensures r.Some? ==> forall k :: i <= k < r.value.0 ==> DraftSettingAt(s, k).None?
    ensures r.None? ==> forall k :: i <= k <= |s| ==> DraftSettingAt(s, k).None?
    decreases |s| - i
  {
    if DraftSettingAt(s, i).Some? then Some((i, DraftSettingAt(s, i).value))
    else if i == |s| then None
    else DraftSettingFrom(s, i + 1)
  }

  /** The first draft setting becomes `releaseDraft: false`; none, no change. */
  function ForceDraftFalse(s: string): (r: string)
    ensures DraftSettingFrom(s, 0).None? ==> r == s
    ensures DraftSettingFrom(s, 0).Some? ==> Contains(r, DraftDisabledLine)
  {
    match DraftSettingFrom(s, 0)
    case None => s
    case Some((m, e)) =>
      OccursShift(s[..m], DraftDisabledLine, s[e..], DraftDisabledLine, 0);
      ContainsWhenOccurs(s[..m] + DraftDisabledLine + s[e..], DraftDisabledLine, m);
      s[..m] + DraftDisabledLine + s[e..]
  }

  /**
   * The draft rewrite keeps the tag trigger: the trigger's quotes cannot
   * lie inside a draft setting, which has none, and a setting is too long
   * to fit between them.
   */
  lemma DraftRewriteKeepsTagTrigger(s: string)
    requires Contains(s, TagTriggerLine)
    ensures Contains(ForceDraftFalse(s), TagTriggerLine)
  {
    if DraftSettingFrom(s, 0).Some? {
      var (m, e) := DraftSettingFrom(s, 0).value;
      var p := FindFrom(s, TagTriggerLine, 0).value;
      var line := s[p..p + 10];
      assert line == TagTriggerLine;
      assert s[p] == line[0] == '-' && s[p + 1] == line[1] == ' ';
      assert s[p + 2] == line[2] == '"' && s[p + 9] == line[9] == '"';
      assert !(m <= p + 2 < e) && !(m <= p + 9 < e);
      assert e - 1 != p && e - 1 != p + 1;
      SpliceKeepsOccurrence(s, m, e, DraftDisabledLine, TagTriggerLine, p);
    }
  }

  // ---------------------------------------------------------------------
  // Validation step, inserted after the checkout step
  // ---------------------------------------------------------------------

  const CheckoutLine := "- name: Checkout repository\n"
  const UsesLine := "uses: actions/checkout@v4\n"
  const StepHead := "\n      - name: Validate release metadata\n        "
  const StepRun := "\n        run: "

  /**
   * What `$1\n${validatorStep}` adds after the checkout block: a blank
   * line, then the named step with its tag-ref guard and its command.
   */
  function ValidationStep(): (r: string)
    ensures OccursAt(r, TagRefGuard, 49)
    ensures OccursAt(r, ValidatorCommand, 103)
  {
    var head := StepHead + TagRefGuard + StepRun;
    OccursShift(StepHead, TagRefGuard, StepRun, TagRefGuard, 0);
    OccursExtend(head, ValidatorCommand + "\n", TagRefGuard, 49);
    OccursShift(head, ValidatorCommand, "\n", ValidatorCommand, 0);
    head + ValidatorCommand + "\n"
  }

  /**
   * The end of a checkout block `\s+- name: Checkout repository\n\s+uses:
   * actions/checkout@v4\n` starting at `i`; each `\s+` takes the whole
   * whitespace run, since a dash or a `u` cannot be whitespace.
   */
  function CheckoutBlockAt(s: string, i: nat): (r: Option<nat>)
    requires i <= |s|
    ensures r.Some? ==> i < r.value <= |s| && s[r.value - 1] == '\n'
  {
    var w := SkipSpaces(s, i, true);
    if w == i || !OccursAt(s, CheckoutLine, w) then None
    else
      var x := w + |CheckoutLine|;
      var y := SkipSpaces(s, x, true);
      if y == x || !OccursAt(s, UsesLine, y) then None
      else
        assert s[y + |UsesLine| - 1] == s[y..y + |UsesLine|][|UsesLine| - 1];
        Some(y + |UsesLine|)
  }

  /** The leftmost checkout block at or after `i`, by its end. */
  function CheckoutBlockFrom(s: string, i: nat): (r: Option<nat>)
    requires i <= |s|
    ensures r.Some? ==> 0 < r.value <= |s| && s[r.value - 1] == '\n'
    ensures r.None? ==> forall k :: i <= k <= |s| ==> CheckoutBlockAt(s, k).None?
    decreases |s| - i
  {
    if CheckoutBlockAt(s, i).Some? then CheckoutBlockAt(s, i)
    else if i == |s| then None
    else CheckoutBlockFrom(s, i + 1)
  }

  /**
   * The step is inserted only when the command is absent, right after the
   * first checkout block; without one the text is left as it is and the
   * step stays missing.
   */
  function InsertValidationStep(s: string): (r: string)
    ensures Contains(s, ValidatorCommand) ==> r == s
    ensures CheckoutBlockFrom(s, 0).None? ==> r == s
    ensures Contains(r, ValidatorCommand) <==> Contains(s, ValidatorCommand) || CheckoutBlockFrom(s, 0).Some?
    ensures !Contains(s, ValidatorCommand) && CheckoutBlockFrom(s, 0).Some? ==> Contains(r, TagRefGuard)
  {
    if Contains(s, ValidatorCommand) then s
    else
      match CheckoutBlockFrom(s, 0)
      case None => s
      case Some(e) =>
        var r := s[..e] + ValidationStep() + s[e..];
        OccursShift(s[..e], ValidationStep(), s[e..], ValidatorCommand, 103);
        OccursShift(s[..e], ValidationStep(), s[e..], TagRefGuard, 49);
        ContainsWhenOccurs(r, ValidatorCommand, e + 103);
        ContainsWhenOccurs(r, TagRefGuard, e + 49);
        r
  }

  /** Inserting twice inserts once: the second pass finds the command. */
  lemma InsertValidationStepIdempotent(s: string)
    ensures InsertValidationStep(InsertValidationStep(s)) == InsertValidationStep(s)
  {
  }

  /** The insertion keeps every line fragment already present. */
  lemma InsertKeepsLines(s: string, w: string)
    requires '\n' !in w && Contains(s, w)
    ensures Contains(InsertValidationStep(s), w)
  {
    if !Contains(s, ValidatorCommand) && CheckoutBlockFrom(s, 0).Some? {
      InsertKeepsOccurrence(s, CheckoutBlockFrom(s, 0).value, ValidationStep(), w);
    }
  }

  /** `fixReleaseWorkflow`'s three rewrites, in order. */
  function FixWorkflowText(s: string): string {
    InsertValidationStep(ForceDraftFalse(RewriteTagTrigger(s)))
  }

  /**
   * When each rewrite finds what it looks for, the repaired workflow
   * passes all four workflow checks. The command may already be present,
   * in which case its guard must be too.
   */
  lemma FixedWorkflowPassesChecks(s: string)
    requires TagBlockFrom(s, 0).Some?
    requires DraftSettingFrom(RewriteTagTrigger(s), 0).Some?
    requires var drafted := ForceDraftFalse(RewriteTagTrigger(s));
             if Contains(drafted, ValidatorCommand) then Contains(drafted, TagRefGuard)
             else CheckoutBlockFrom(drafted, 0).Some?
    ensures CheckWorkflow(FixWorkflowText(s)) == WorkflowChecks(true, true, true, true)
  {
    var tagged := RewriteTagTrigger(s);
    var drafted := ForceDraftFalse(tagged);
    var fixed := InsertValidationStep(drafted);
    assert fixed == FixWorkflowText(s);
    DraftRewriteKeepsTagTrigger(tagged);
    LinesWithoutNewline();
    InsertKeepsLines(drafted, TagTriggerLine);
    InsertKeepsLines(drafted, DraftDisabledLine);
    if Contains(drafted, ValidatorCommand) {
      InsertKeepsLines(drafted, TagRefGuard);
    }
    assert Contains(fixed, TagTriggerLine) && Contains(fixed, DraftDisabledLine);
    assert Contains(fixed, ValidatorCommand) && Contains(fixed, TagRefGuard);
  }

  /** The checked lines are single lines. */
  lemma LinesWithoutNewline()
    ensures '\n' !in TagTriggerLine && '\n' !in DraftDisabledLine && '\n' !in TagRefGuard
  {
  }

  /**
   * Without a checkout block the repair cannot add the validation step,
   * and the check still reports it missing.
   */
  lemma UnanchoredStepStaysMissing(s: string)
    requires var drafted := ForceDraftFalse(RewriteTagTrigger(s));
             !Contains(drafted, ValidatorCommand) && CheckoutBlockFrom(drafted, 0).None?
    ensures MissingValidationStep in WorkflowIssues(CheckWorkflow(FixWorkflowText(s)))
  {
  }

  /** `fixReleaseWorkflow`: read, rewrite, write back. */
  function FixReleaseWorkflow(files: FileStore): (r: Result<FileStore, ReleaseError>)
    ensures r.Ok? <==> ReleaseWorkflowPath in files && files[ReleaseWorkflowPath].Text?
    ensures r.Ok? ==> r.value == files[ReleaseWorkflowPath := Text(FixWorkflowText(files[ReleaseWorkflowPath].text))]
  {
    var content :- ReadText(files, ReleaseWorkflowPath);
    Ok(files[ReleaseWorkflowPath := Text(FixWorkflowText(content))])
  }
}
