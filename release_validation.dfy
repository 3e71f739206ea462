/**
 * `currentVersions` and `validateReleaseConfig`: the version collected
 * from every location, and the ordered list of problems the `check`
 * command reports.
 */
module ReleaseValidation {
  import opened Wrappers
  import opened Strings
  import opened JsonModel
  import opened ReleaseBase
  import opened ReleaseAdapters
  import opened ReleaseLockAdapter

  /** The collected versions: location label and version, in the order the object's keys were inserted. */
  type Versions = seq<(string, string)>

  const TagTriggerLine := "- \"v*.*.*\""
  const DraftDisabledLine := "releaseDraft: false"
  const ValidatorCommand := "node scripts/release.mjs check --tag \"${{ github.ref_name }}\""
  const TagRefGuard := "if: startsWith(github.ref, 'refs/tags/')"

  /** A problem `check` reports; each becomes one line of its failure report. */
  datatype Issue =
    | VersionMismatch(versions: Versions)
    | UnexpectedVersion(location: string, expected: string, found: string)
    | TagMismatch(required: string, given: string)
    | MissingUpdaterArtifacts
    | WrongUpdaterEndpoint
    | MissingTagTrigger
    | DraftNotDisabled
    | MissingValidationStep
    | ValidationStepNotGated

  /** The label of a lock-file entry, `<lock path> (<package>)`. */
  function LockLabel(path: string, name: string): string {
    path + " (" + name + ")"
  }

  /**
   * Labelled reads, collected in order: the first failing read aborts the
   * whole collection with its error.
   */
  function Collect(attempts: seq<(string, Result<string, ReleaseError>)>): (r: Result<Versions, ReleaseError>)
    ensures r.Ok? <==> forall i :: 0 <= i < |attempts| ==> attempts[i].1.Ok?
    ensures r.Ok? ==> |r.value| == |attempts| && forall i :: 0 <= i < |attempts| ==> r.value[i] == (attempts[i].0, attempts[i].1.value)
    ensures r.Err? ==> exists i :: 0 <= i < |attempts| && attempts[i].1 == Err(r.error) && forall j :: 0 <= j < i ==> attempts[j].1.Ok?
  {
    if attempts == [] then Ok([])
    else if attempts[0].1.Err? then Err(attempts[0].1.error)
    else
      var rest := Collect(attempts[1..]);
      if rest.Err? then
        var i :| 0 <= i < |attempts[1..]| && attempts[1..][i].1 == Err(rest.error) && forall j :: 0 <= j < i ==> attempts[1..][j].1.Ok?;
        assert attempts[i + 1].1 == Err(rest.error);
        Err(rest.error)
      else Ok([(attempts[0].0, attempts[0].1.value)] + rest.value)
  }

  /**
   * Labelled reads that may find nothing, collected in order: the first
   * failing read aborts, and only the attempts that found a version add an
   * entry.
   */
  function CollectFound(attempts: seq<(string, Result<Option<string>, ReleaseError>)>): (r: Result<Versions, ReleaseError>)
    ensures r.Ok? <==> forall i :: 0 <= i < |attempts| ==> attempts[i].1.Ok?
    ensures r.Ok? ==> |r.value| <= |attempts|
    ensures r.Ok? ==> forall e :: e in r.value <==> exists i :: 0 <= i < |attempts| && attempts[i].1 == Ok(Some(e.1)) && attempts[i].0 == e.0
  {
    if attempts == [] then Ok([])
    else if attempts[0].1.Err? then Err(attempts[0].1.error)
    else
      var rest := CollectFound(attempts[1..]);
      if rest.Err? then Err(rest.error)
      else
        var head := if attempts[0].1.value.Some? then [(attempts[0].0, attempts[0].1.value.value)] else [];
        var r := head + rest.value;
        assert forall e :: e in r <==> exists i :: 0 <= i < |attempts| && attempts[i].1 == Ok(Some(e.1)) && attempts[i].0 == e.0 by {
          forall e ensures e in r <==> exists i :: 0 <= i < |attempts| && attempts[i].1 == Ok(Some(e.1)) && attempts[i].0 == e.0 {
            if e in rest.value {
              var i :| 0 <= i < |attempts[1..]| && attempts[1..][i].1 == Ok(Some(e.1)) && attempts[1..][i].0 == e.0;
              assert attempts[i + 1] == attempts[1..][i];
            }
            if exists i :: 0 <= i < |attempts| && attempts[i].1 == Ok(Some(e.1)) && attempts[i].0 == e.0 {
              var i :| 0 <= i < |attempts| && attempts[i].1 == Ok(Some(e.1)) && attempts[i].0 == e.0;
              if i > 0 {
                assert attempts[1..][i - 1] == attempts[i];
              }
            }
          }
        }
        Ok(r)
  }

  /** The five mandatory locations, in the order `currentVersions` attempts them. */
  function MandatoryReads(files: FileStore): seq<(string, Result<string, ReleaseError>)> {
    [(PackageJsonPath, ReadPackageJsonVersion(files)),
     (TauriCargoTomlPath, ReadCargoVersion(files, TauriCargoTomlPath)),
     (CoreCargoTomlPath, ReadCargoVersion(files, CoreCargoTomlPath)),
     (ServerCargoTomlPath, ReadCargoVersion(files, ServerCargoTomlPath)),
     (TauriConfigPath, ReadTauriVersion(files))]
  }

  /** The five lock records, in the order `currentVersions` attempts them. */
  function LockReads(files: FileStore): seq<(string, Result<Option<string>, ReleaseError>)> {
    [(LockLabel(CoreCargoLockPath, CorePackage), ReadLockVersion(files, CoreCargoLockPath, CorePackage)),
     (LockLabel(ServerCargoLockPath, ServerPackage), ReadLockVersion(files, ServerCargoLockPath, ServerPackage)),
     (LockLabel(ServerCargoLockPath, CorePackage), ReadLockVersion(files, ServerCargoLockPath, CorePackage)),
     (LockLabel(TauriCargoLockPath, AppPackage), ReadLockVersion(files, TauriCargoLockPath, AppPackage)),
     (LockLabel(TauriCargoLockPath, CorePackage), ReadLockVersion(files, TauriCargoLockPath, CorePackage))]
  }

  /** `currentVersions`: the mandatory locations, then the lock records that were found. */
  function CurrentVersions(files: FileStore): (r: Result<Versions, ReleaseError>)
    ensures r.Ok? <==> Collect(MandatoryReads(files)).Ok? && CollectFound(LockReads(files)).Ok?
    ensures r.Ok? ==> r.value == Collect(MandatoryReads(files)).value + CollectFound(LockReads(files)).value
    ensures r.Ok? ==> 5 <= |r.value| <= 10 && r.value[0] == (PackageJsonPath, ReadPackageJsonVersion(files).value)
    ensures r.Ok? ==> ReadTauriVersion(files).Ok? && ReadPackageJsonVersion(files).Ok?
    ensures r.Ok? ==> ReadLockVersion(files, CoreCargoLockPath, CorePackage).Ok?
  {
    var mandatoryReads := MandatoryReads(files);
    var mandatory :- Collect(mandatoryReads);
    var locks :- CollectFound(LockReads(files));
    assert mandatoryReads[4].1 == ReadTauriVersion(files) && mandatoryReads[4].1.Ok?;
    assert mandatoryReads[0].1 == ReadPackageJsonVersion(files) && mandatoryReads[0].1.Ok?;
    assert LockReads(files)[0].1 == ReadLockVersion(files, CoreCargoLockPath, CorePackage);
    Ok(mandatory + locks)
  }

  // ---------------------------------------------------------------------
  // The version and tag checks
  // ---------------------------------------------------------------------

  /** `new Set(Object.values(versions))`. */
  function DistinctVersions(versions: Versions): set<string> {
    set i | 0 <= i < |versions| :: versions[i].1
  }

  predicate AllSame(versions: Versions) {
    forall i, j :: 0 <= i < |versions| && 0 <= j < |versions| ==> versions[i].1 == versions[j].1
  }

  /** The set of distinct versions has exactly one element exactly when a non-empty collection agrees throughout. */
  lemma OneDistinctVersionIffAllSame(versions: Versions)
    requires |versions| > 0
    ensures |DistinctVersions(versions)| == 1 <==> AllSame(versions)
  {
    var d := DistinctVersions(versions);
    var v := versions[0].1;
    assert v in d;
    if AllSame(versions) {
      assert d == {v};
    }
    if |d| == 1 {
      forall i, j | 0 <= i < |versions| && 0 <= j < |versions|
        ensures versions[i].1 == versions[j].1
      {
        assert versions[i].1 in d && versions[j].1 in d;
        SingletonMembers(d, v, versions[i].1);
        SingletonMembers(d, v, versions[j].1);
      }
    }
  }

  lemma SingletonMembers(d: set<string>, v: string, w: string)
    requires |d| == 1 && v in d && w in d
    ensures v == w
  {
    var rest := d - {v};
    assert |rest| == 0;
    assert w !in rest;
  }

  /** The one mismatch issue, listing every location, when the versions are not all the same. */
  function MismatchIssues(versions: Versions): (r: seq<Issue>)
    requires |versions| > 0
    ensures r == [] || r == [VersionMismatch(versions)]
    ensures r == [] <==> AllSame(versions)
  {
    OneDistinctVersionIffAllSame(versions);
    if |DistinctVersions(versions)| != 1 then [VersionMismatch(versions)] else []
  }

  /** One issue per location whose version differs from `expected`, in location order. */
  function UnexpectedIssues(versions: Versions, expected: string): (r: seq<Issue>)
    ensures |r| <= |versions|
    ensures forall k :: 0 <= k < |r| ==>
              r[k].UnexpectedVersion? && r[k].expected == expected
              && r[k].found != expected && (r[k].location, r[k].found) in versions
    ensures forall i :: 0 <= i < |versions| && versions[i].1 != expected
              ==> UnexpectedVersion(versions[i].0, expected, versions[i].1) in r
    ensures r == [] <==> forall i :: 0 <= i < |versions| ==> versions[i].1 == expected
    decreases |versions|
  {
    if versions == [] then []
    else
      var init := versions[..|versions| - 1];
      var last := versions[|versions| - 1];
      var before := UnexpectedIssues(init, expected);
      assert forall i :: 0 <= i < |init| ==> versions[i] == init[i];
      before + (if last.1 != expected then [UnexpectedVersion(last.0, expected, last.1)] else [])
  }

  /**
   * The tag check: the trimmed tag must be `v` followed by the expected
   * version, or by package.json's version when none is expected.
   */
  function TagIssues(expectedVersion: Option<string>, expectedTag: Option<string>, packageVersion: string): (r: seq<Issue>)
    ensures r == [] || (|r| == 1 && r[0].TagMismatch?)
    ensures r != [] <==>
              (expectedTag.Some? && expectedTag.value != ""
               && JsTrim(expectedTag.value)
                  != "v" + (if expectedVersion.Some? && expectedVersion.value != "" then expectedVersion.value else packageVersion))
  {
    if expectedTag.Some? && expectedTag.value != "" then
      var effective := if expectedVersion.Some? && expectedVersion.value != "" then expectedVersion.value else packageVersion;
      var required := "v" + effective;
      var given := JsTrim(expectedTag.value);
      if given != required then [TagMismatch(required, given)] else []
    else []
  }

  // ---------------------------------------------------------------------
  // The updater-config and workflow checks
  // ---------------------------------------------------------------------

  /** An issue about the updater config or the workflow rather than about versions. */
  predicate IsStructural(issue: Issue) {
    !issue.VersionMismatch? && !issue.UnexpectedVersion? && !issue.TagMismatch?
  }

  /** `config.bundle?.createUpdaterArtifacts === "v1Compatible"`. */
  predicate UpdaterArtifactsSet(config: seq<(string, Json)>) {
    OptionalMember(Lookup(config, "bundle"), "createUpdaterArtifacts") == Some(JString("v1Compatible"))
  }

  /** `config.plugins?.updater?.endpoints` is an array holding exactly the canonical endpoint. */
  predicate UpdaterEndpointSet(config: seq<(string, Json)>) {
    OptionalMember(OptionalMember(Lookup(config, "plugins"), "updater"), "endpoints")
      == Some(JArray([JString(UpdaterEndpoint)]))
  }

  /** The two updater-config checks. */
  datatype ConfigChecks = ConfigChecks(artifacts: bool, endpoint: bool)

  function CheckConfig(config: seq<(string, Json)>): ConfigChecks {
    ConfigChecks(UpdaterArtifactsSet(config), UpdaterEndpointSet(config))
  }

  /** One issue per failed updater-config check. */
  function ConfigIssues(checks: ConfigChecks): (r: seq<Issue>)
    ensures forall x :: x in r ==> x == MissingUpdaterArtifacts || x == WrongUpdaterEndpoint
    ensures MissingUpdaterArtifacts in r <==> !checks.artifacts
    ensures WrongUpdaterEndpoint in r <==> !checks.endpoint
    ensures |r| <= 2
  {
    (if !checks.artifacts then [MissingUpdaterArtifacts] else [])
    + (if !checks.endpoint then [WrongUpdaterEndpoint] else [])
  }

  /** The workflow checks: plain substring tests over the whole file. */
  datatype WorkflowChecks = WorkflowChecks(tagTrigger: bool, draftDisabled: bool, validationStep: bool, tagGuard: bool)

  function CheckWorkflow(workflow: string): WorkflowChecks {
    WorkflowChecks(Contains(workflow, TagTriggerLine), Contains(workflow, DraftDisabledLine),
                   Contains(workflow, ValidatorCommand), Contains(workflow, TagRefGuard))
  }

  /** One issue per failed workflow check, in the order the checks run. */
  function WorkflowIssues(checks: WorkflowChecks): (r: seq<Issue>)
    ensures forall x :: x in r ==> x == MissingTagTrigger || x == DraftNotDisabled || x == MissingValidationStep || x == ValidationStepNotGated
    ensures MissingTagTrigger in r <==> !checks.tagTrigger
    ensures DraftNotDisabled in r <==> !checks.draftDisabled
    ensures MissingValidationStep in r <==> !checks.validationStep
    ensures ValidationStepNotGated in r <==> !checks.tagGuard
    ensures |r| <= 4
  {
    (if !checks.tagTrigger then [MissingTagTrigger] else [])
    + (if !checks.draftDisabled then [DraftNotDisabled] else [])
    + (if !checks.validationStep then [MissingValidationStep] else [])
    + (if !checks.tagGuard then [ValidationStepNotGated] else [])
  }

  /** The result of a validation run: the issues found and the collected versions. */
  datatype Validation = Validation(issues: seq<Issue>, versions: Versions)

  /** The expected-version issues, checked only when a version is expected. */
  function ExpectedIssues(versions: Versions, expectedVersion: Option<string>): seq<Issue> {
    if expectedVersion.Some? && expectedVersion.value != "" then UnexpectedIssues(versions, expectedVersion.value) else []
  }

  /** The updater-config issues, then the workflow issues. */
  function StructuralIssues(config: ConfigChecks, workflow: WorkflowChecks): (r: seq<Issue>)
    ensures forall x :: x in r ==> IsStructural(x)
  {
    ConfigIssues(config) + WorkflowIssues(workflow)
  }

  /** Every issue, in the order `validateReleaseConfig` pushes them. */
  function Findings(versions: Versions, config: ConfigChecks, workflow: WorkflowChecks,
                    expectedVersion: Option<string>, expectedTag: Option<string>): seq<Issue>
    requires |versions| > 0
  {
    MismatchIssues(versions)
    + (ExpectedIssues(versions, expectedVersion)
       + (TagIssues(expectedVersion, expectedTag, versions[0].1) + StructuralIssues(config, workflow)))
  }

  /**
   * `validateReleaseConfig` as a function. The updater config is read
   * after the versions, which already required it to be an object with a
   * string `version`, so here it is that object's fields.
   */
  function ValidationSpec(files: FileStore, expectedVersion: Option<string>, expectedTag: Option<string>)
    : (r: Result<Validation, ReleaseError>)
    ensures r.Ok? <==> CurrentVersions(files).Ok? && ReadText(files, ReleaseWorkflowPath).Ok?
    ensures r.Ok? ==> r.value.versions == CurrentVersions(files).value
  {
    var versions :- CurrentVersions(files);
    var workflow :- ReadText(files, ReleaseWorkflowPath);
    Ok(Validation(Findings(versions, CheckConfig(files[TauriConfigPath].json.fields), CheckWorkflow(workflow),
                           expectedVersion, expectedTag), versions))
  }

  /**
   * `validateReleaseConfig`: each check contributes its issues in turn,
   * one location at a time for the expected-version check.
   */
  method ValidateReleaseConfig(files: FileStore, expectedVersion: Option<string>, expectedTag: Option<string>)
    returns (r: Result<Validation, ReleaseError>)
    ensures r == ValidationSpec(files, expectedVersion, expectedTag)
  {
    var current := CurrentVersions(files);
    if current.Err? {
      return Err(current.error);
    }
    var versions := current.value;
    var mismatch := MismatchIssues(versions);
    var unexpected := [];
    if expectedVersion.Some? && expectedVersion.value != "" {
      unexpected := PushUnexpectedIssues(versions, expectedVersion.value);
    }
    var tag := TagIssues(expectedVersion, expectedTag, versions[0].1);
    var config := ConfigIssues(CheckConfig(files[TauriConfigPath].json.fields));
    var workflow := ReadText(files, ReleaseWorkflowPath);
    if workflow.Err? {
      return Err(workflow.error);
    }
    var structural := config + WorkflowIssues(CheckWorkflow(workflow.value));
    r := Ok(Validation(mismatch + (unexpected + (tag + structural)), versions));
  }

  /** The loop of `validateReleaseConfig` that pushes one issue per location off the expected version. */
  method PushUnexpectedIssues(versions: Versions, expected: string) returns (issues: seq<Issue>)
    ensures issues == UnexpectedIssues(versions, expected)
  {
    issues := [];
    var i := 0;
    while i < |versions|
      invariant 0 <= i <= |versions|
      invariant issues == UnexpectedIssues(versions[..i], expected)
    {
      UnexpectedIssuesStep(versions, i, expected);
      if versions[i].1 != expected {
        issues := issues + [UnexpectedVersion(versions[i].0, expected, versions[i].1)];
      }
      i := i + 1;
    }
    assert versions[..|versions|] == versions;
  }

  /** One more location extends the expected-version issues by at most its own issue. */
  lemma UnexpectedIssuesStep(versions: Versions, i: nat, expected: string)
    requires i < |versions|
    ensures UnexpectedIssues(versions[..i + 1], expected)
            == UnexpectedIssues(versions[..i], expected)
               + (if versions[i].1 != expected then [UnexpectedVersion(versions[i].0, expected, versions[i].1)] else [])
  {
    assert versions[..i + 1][..i] == versions[..i];
  }

  /**
   * The mismatch issue is reported exactly when the locations disagree,
   * and then it comes first.
   */
  lemma MismatchReportedFirst(versions: Versions, config: ConfigChecks, workflow: WorkflowChecks,
                              expectedVersion: Option<string>, expectedTag: Option<string>)
    requires |versions| > 0
    ensures var f := Findings(versions, config, workflow, expectedVersion, expectedTag);
            (VersionMismatch(versions) in f <==> !AllSame(versions))
            && (!AllSame(versions) ==> f[0] == VersionMismatch(versions))
  {
    var structural := StructuralIssues(config, workflow);
    var tag := TagIssues(expectedVersion, expectedTag, versions[0].1);
    var expectedPart := ExpectedIssues(versions, expectedVersion);
    assert VersionMismatch(versions) !in structural;
    assert VersionMismatch(versions) !in tag;
    assert VersionMismatch(versions) !in expectedPart;
  }

  /**
   * One issue per location off the expected version, in location order;
   * none when no version is expected.
   */
  lemma ExpectedVersionIssuesExact(versions: Versions, config: ConfigChecks, workflow: WorkflowChecks,
                                   expectedVersion: Option<string>, expectedTag: Option<string>)
    requires |versions| > 0
    ensures var f := Findings(versions, config, workflow, expectedVersion, expectedTag);
            forall location, expected, found ::
              UnexpectedVersion(location, expected, found) in f
              <==> expectedVersion.Some? && expectedVersion.value != "" && expected == expectedVersion.value
                   && (location, found) in versions && found != expected
  {
    var f := Findings(versions, config, workflow, expectedVersion, expectedTag);
    var expectedPart := ExpectedIssues(versions, expectedVersion);
    var structural := StructuralIssues(config, workflow);
    var tag := TagIssues(expectedVersion, expectedTag, versions[0].1);
    forall location, expected, found
      ensures UnexpectedVersion(location, expected, found) in f
              <==> expectedVersion.Some? && expectedVersion.value != "" && expected == expectedVersion.value
                   && (location, found) in versions && found != expected
    {
      var issue := UnexpectedVersion(location, expected, found);
      assert issue !in structural && issue !in tag && issue !in MismatchIssues(versions);
      if expectedVersion.Some? && expectedVersion.value != "" && expected == expectedVersion.value
         && (location, found) in versions && found != expected {
        var i :| 0 <= i < |versions| && versions[i] == (location, found);
        assert issue in expectedPart;
      }
    }
  }

  /**
   * When every location holds the expected version and the tag (if any)
   * names it, no version or tag issue is reported.
   */
  lemma AlignedTreeHasNoVersionIssues(versions: Versions, config: ConfigChecks, workflow: WorkflowChecks,
                                      version: string, expectedTag: Option<string>)
    requires |versions| > 0 && version != ""
    requires forall i :: 0 <= i < |versions| ==> versions[i].1 == version
    requires expectedTag.None? || JsTrim(expectedTag.value) == "v" + version
    ensures Findings(versions, config, workflow, Some(version), expectedTag) == StructuralIssues(config, workflow)
  {
    assert AllSame(versions);
  }

  /**
   * A config or workflow issue is reported exactly when its own check
   * fails: the version checks never produce one.
   */
  lemma StructuralIssuesExact(versions: Versions, config: ConfigChecks, workflow: WorkflowChecks,
                              expectedVersion: Option<string>, expectedTag: Option<string>, x: Issue)
    requires |versions| > 0 && IsStructural(x)
    ensures x in Findings(versions, config, workflow, expectedVersion, expectedTag)
            <==> x in ConfigIssues(config) || x in WorkflowIssues(workflow)
  {
    assert x !in MismatchIssues(versions);
    assert x !in ExpectedIssues(versions, expectedVersion);
    assert x !in TagIssues(expectedVersion, expectedTag, versions[0].1);
  }
}
