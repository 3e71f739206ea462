/**
 * What the commands guarantee across runs: the order of the git commands
 * of `cut`, what a cut commits, when it stops, what `check --fix`
 * repairs, and why `cut` cannot follow `prepare`.
 */
module ReleaseCommandFacts {
  import opened Wrappers
  import opened Strings
  import opened JsonModel
  import opened ReleaseBase
  import opened ReleaseInput
  import opened ReleaseAdapters
  import opened ReleaseLockAdapter
  import opened ReleaseValidation
  import opened ReleaseFixes
  import opened ReleaseAlign
  import opened ReleaseCommands

  /** `after` is `before` followed by a prefix of `cmds`. */
  predicate LogExtendedBy(before: seq<GitCommand>, after: seq<GitCommand>, cmds: seq<GitCommand>) {
    |before| <= |after| <= |before| + |cmds| && after == before + cmds[..|after| - |before|]
  }

  // ---------------------------------------------------------------------
  // The git part of `cut`
  // ---------------------------------------------------------------------

  /** A log extended by a whole first part and then by a prefix of the rest is extended by a prefix of both. */
  lemma LogExtendedThen(before: seq<GitCommand>, mid: seq<GitCommand>, after: seq<GitCommand>,
                        first: seq<GitCommand>, rest: seq<GitCommand>)
    requires mid == before + first && LogExtendedBy(mid, after, rest)
    ensures LogExtendedBy(before, after, first + rest)
    ensures after == mid + rest ==> after == before + (first + rest)
  {
    assert (first + rest)[..|after| - |before|] == first + rest[..|after| - |mid|];
  }

  /** A log extended by one command more than a prefix of the plan ends in that prefix of the plan. */
  lemma LogPrefix(before: seq<GitCommand>, cmds: seq<GitCommand>, k: nat)
    requires k <= |cmds|
    ensures LogExtendedBy(before, before + cmds[..k], cmds)
  {
  }

  /** Publishing issues its commands in order and stops at the first that fails. */
  lemma PublishLog(w: World, version: string, push: bool)
    ensures var r := PublishSpec(w, version, push);
            LogExtendedBy(w.git.log, r.world.git.log, PublishCommands(version, push))
            && (r.result.Ok? ==> r.result.value == TagCreated("v" + version, push)
                                 && r.world.git.log == w.git.log + PublishCommands(version, push))
  {
    var tag := "v" + version;
    var cmds := PublishCommands(version, push);
    var log := w.git.log;
    var r := PublishSpec(w, version, push);
    var (g1, committed) := GitRun(w.git, w.files, Commit(CommitMessage(version)));
    if !committed {
      assert r.world.git.log == log + cmds[..1];
      LogPrefix(log, cmds, 1);
    } else {
      var (g2, tagged) := GitRun(g1, w.files, AnnotatedTag(tag, "Release " + tag));
      if !tagged {
        assert r.world.git.log == log + cmds[..2];
        LogPrefix(log, cmds, 2);
      } else if !push {
        assert r.world.git.log == log + cmds[..2];
        assert cmds[..2] == cmds;
      } else {
        var (g3, pushedHead) := GitRun(g2, w.files, PushHead);
        if !pushedHead {
          assert r.world.git.log == log + cmds[..3];
          LogPrefix(log, cmds, 3);
        } else {
          assert r.world.git.log == log + cmds[..4];
          assert cmds[..4] == cmds;
        }
      }
    }
  }

  /**
   * `cut` issues its git commands in the order of `CutCommands` and stops
   * at the first that fails or aborts it: the log grows by a prefix of the
   * plan, and by the whole plan exactly when a tag was created.
   */
  lemma CutGitLog(w: World, version: string, push: bool)
    ensures var r := CutGitSpec(w, version, push);
            LogExtendedBy(w.git.log, r.world.git.log, CutCommands(version, ReleaseVersionFiles(w.files), push))
            && (r.result.Ok? ==> r.result.value == TagCreated("v" + version, push)
                                 && r.world.git.log == w.git.log + CutCommands(version, ReleaseVersionFiles(w.files), push))
  {
    var tag := "v" + version;
    var paths := ReleaseVersionFiles(w.files);
    var cmds := CutCommands(version, paths, push);
    var first := [RevParseTag(tag), Add(paths), DiffCachedNames];
    assert cmds == first + PublishCommands(version, push);
    var log := w.git.log;
    var r := CutGitSpec(w, version, push);
    var (g1, found) := GitRun(w.git, w.files, RevParseTag(tag));
    if found {
      assert r.world.git.log == log + cmds[..1];
      LogPrefix(log, cmds, 1);
    } else {
      var (g2, added) := GitRun(g1, w.files, Add(paths));
      if !added {
        assert r.world.git.log == log + cmds[..2];
        LogPrefix(log, cmds, 2);
      } else {
        var (g3, listed) := GitRun(g2, w.files, DiffCachedNames);
        if !listed || g3.staged == {} {
          assert r.world.git.log == log + cmds[..3];
          LogPrefix(log, cmds, 3);
        } else {
          assert g3.log == log + first;
          assert r == PublishSpec(w.(git := g3), version, push);
          PublishAfterStaging(log, w.(git := g3), version, push, first);
        }
      }
    }
  }

  /** Publishing after the three staging commands extends the log by a prefix of the whole cut. */
  lemma PublishAfterStaging(log: seq<GitCommand>, w: World, version: string, push: bool, first: seq<GitCommand>)
    requires w.git.log == log + first
    ensures var r := PublishSpec(w, version, push);
            LogExtendedBy(log, r.world.git.log, first + PublishCommands(version, push))
            && (r.result.Ok? ==> r.result.value == TagCreated("v" + version, push)
                                 && r.world.git.log == log + (first + PublishCommands(version, push)))
  {
    var r := PublishSpec(w, version, push);
    PublishLog(w, version, push);
    LogExtendedThen(log, w.git.log, r.world.git.log, first, PublishCommands(version, push));
  }

  /** Committing after every changed path was staged records the working content of all of them. */
  lemma StagedPathsCommitted(head: FileStore, files: FileStore, staged: set<string>, paths: seq<string>)
    requires forall i :: 0 <= i < |paths| ==> paths[i] in files
    requires Changed(files, head, paths) <= staged
    ensures forall p :: p in paths ==> p in CommitStaged(head, files, staged) && CommitStaged(head, files, staged)[p] == files[p]
  {
    forall p | p in paths
      ensures p in CommitStaged(head, files, staged) && CommitStaged(head, files, staged)[p] == files[p]
    {
      var i :| 0 <= i < |paths| && paths[i] == p;
      if p !in head || head[p] != files[p] {
        assert p in Changed(files, head, paths);
      }
    }
  }

  /** A successful publish commits what was staged and adds exactly the release tag. */
  lemma PublishCommits(w: World, version: string, push: bool)
    requires PublishSpec(w, version, push).result.Ok?
    ensures var r := PublishSpec(w, version, push);
            "v" + version !in w.git.tags && r.world.git.tags == w.git.tags + {"v" + version}
            && r.world.git.staged == {} && r.world.git.head == CommitStaged(w.git.head, w.files, w.git.staged)
  {
    var tag := "v" + version;
    var (g1, committed) := GitRun(w.git, w.files, Commit(CommitMessage(version)));
    var (g2, tagged) := GitRun(g1, w.files, AnnotatedTag(tag, "Release " + tag));
    assert g2.tags == w.git.tags + {tag} && g2.head == g1.head && g2.staged == {};
    if push {
      var (g3, pushedHead) := GitRun(g2, w.files, PushHead);
      var (g4, pushedTag) := GitRun(g3, w.files, PushTag(tag));
      assert g4.tags == g2.tags && g4.head == g2.head && g4.staged == {};
    }
  }

  /**
   * A successful cut commits the working tree's content of every staged
   * release file, and creates a tag that did not exist before.
   */
  lemma CutCommitsReleaseFiles(w: World, version: string, push: bool)
    requires CutGitSpec(w, version, push).result.Ok?
    ensures var r := CutGitSpec(w, version, push);
            "v" + version !in w.git.tags && r.world.git.tags == w.git.tags + {"v" + version}
            && r.world.git.staged == {}
            && forall p :: p in ReleaseVersionFiles(w.files) ==> p in r.world.git.head && r.world.git.head[p] == w.files[p]
  {
    var tag := "v" + version;
    var paths := ReleaseVersionFiles(w.files);
    var (g1, found) := GitRun(w.git, w.files, RevParseTag(tag));
    var (g2, added) := GitRun(g1, w.files, Add(paths));
    var (g3, listed) := GitRun(g2, w.files, DiffCachedNames);
    assert g1.tags == w.git.tags && g1.head == w.git.head && g1.staged == w.git.staged;
    assert g2.staged == w.git.staged + Changed(w.files, w.git.head, paths);
    assert g3.head == w.git.head && g3.staged == g2.staged && g3.tags == w.git.tags;
    assert CutGitSpec(w, version, push) == PublishSpec(w.(git := g3), version, push);
    PublishCommits(w.(git := g3), version, push);
    StagedPathsCommitted(w.git.head, w.files, g3.staged, paths);
  }

  /**
   * A tag that already exists is never re-created: when `rev-parse` finds
   * it, the cut stops before staging anything.
   */
  lemma ExistingTagStopsCut(w: World, version: string, push: bool)
    requires "v" + version in w.git.tags && RevParseTag("v" + version) !in w.git.failing
    ensures CutGitSpec(w, version, push)
              == Outcome(w.(git := w.git.(log := w.git.log + [RevParseTag("v" + version)])),
                         Err(TagAlreadyExists("v" + version)))
  {
    assert GitRun(w.git, w.files, RevParseTag("v" + version)).1;
  }

  /** Publishing over an existing tag fails at the tag and leaves the tags as they were. */
  lemma PublishKeepsExistingTag(w: World, version: string, push: bool)
    requires "v" + version in w.git.tags
    ensures var r := PublishSpec(w, version, push);
            r.result.Err? && r.world.git.tags == w.git.tags
  {
    var tag := "v" + version;
    var (g1, committed) := GitRun(w.git, w.files, Commit(CommitMessage(version)));
    assert g1.tags == w.git.tags;
    if committed {
      var (g2, tagged) := GitRun(g1, w.files, AnnotatedTag(tag, "Release " + tag));
      assert !tagged && g2.tags == w.git.tags;
    }
  }

  /** Even when `rev-parse` fails, an existing tag makes the cut fail and is left as it was. */
  lemma ExistingTagNeverMoved(w: World, version: string, push: bool)
    requires "v" + version in w.git.tags
    ensures var r := CutGitSpec(w, version, push);
            r.result.Err? && r.world.git.tags == w.git.tags
  {
    var tag := "v" + version;
    var paths := ReleaseVersionFiles(w.files);
    var (g1, found) := GitRun(w.git, w.files, RevParseTag(tag));
    assert g1.tags == w.git.tags;
    if !found {
      var (g2, added) := GitRun(g1, w.files, Add(paths));
      assert g2.tags == w.git.tags;
      if added {
        var (g3, listed) := GitRun(g2, w.files, DiffCachedNames);
        assert g3.tags == w.git.tags;
        if listed && g3.staged != {} {
          assert CutGitSpec(w, version, push) == PublishSpec(w.(git := g3), version, push);
          PublishKeepsExistingTag(w.(git := g3), version, push);
        }
      }
    }
  }

  /**
   * With nothing staged and every release file committed as it is, the cut
   * stops at the staged-diff guard and commits nothing.
   */
  lemma UnchangedTreeStopsCut(w: World, version: string, push: bool)
    requires w.git.staged == {} && "v" + version !in w.git.tags
    requires RevParseTag("v" + version) !in w.git.failing
    requires Add(ReleaseVersionFiles(w.files)) !in w.git.failing && DiffCachedNames !in w.git.failing
    requires forall p :: p in ReleaseVersionFiles(w.files) ==> p in w.files && p in w.git.head && w.git.head[p] == w.files[p]
    ensures var r := CutGitSpec(w, version, push);
            r.result == Err(NoStagedChanges) && r.world.git.head == w.git.head && r.world.git.tags == w.git.tags
  {
    var paths := ReleaseVersionFiles(w.files);
    assert Changed(w.files, w.git.head, paths) == {};
  }

  // ---------------------------------------------------------------------
  // The whole of `cut`
  // ---------------------------------------------------------------------

  /**
   * `cut` touches git only after the version is valid, `prepare` returned,
   * and validation found nothing; then it runs the plan in order, the
   * pushes included only when asked for.
   */
  lemma CutLogFollowsOrder(w: World, version: Option<string>, push: bool)
    ensures var r := CutSpec(w, version, push);
            if EnsureVersionInput(version).Err? then r.world.git == w.git
            else
              var n := EnsureVersionInput(version).value;
              var prepared := PrepareSpec(w, Some(n));
              if prepared.result.Err? || prepared.world.exitCode != 0 then r.world.git == w.git
              else
                LogExtendedBy(w.git.log, r.world.git.log, CutCommands(n, ReleaseVersionFiles(prepared.world.files), push))
                && (r.result.Ok? ==> r.result.value == TagCreated("v" + n, push))
  {
    if EnsureVersionInput(version).Ok? {
      var n := EnsureVersionInput(version).value;
      var prepared := PrepareSpec(w, Some(n));
      if prepared.result.Ok? && prepared.world.exitCode == 0 {
        CutGitLog(prepared.world, n, push);
      }
    }
  }

  /** A command that pushes to the remote. */
  predicate IsPush(c: GitCommand) {
    c.PushHead? || c.PushTag?
  }

  /** A log extended by part of a plan without pushes gained no push. */
  lemma NoPushAdded(before: seq<GitCommand>, after: seq<GitCommand>, cmds: seq<GitCommand>)
    requires LogExtendedBy(before, after, cmds)
    requires forall i :: 0 <= i < |cmds| ==> !IsPush(cmds[i])
    ensures forall i :: |before| <= i < |after| ==> !IsPush(after[i])
  {
    forall i | |before| <= i < |after|
      ensures !IsPush(after[i])
    {
      assert after[i] == cmds[i - |before|];
    }
  }

  /** Without `--push`, the git part of `cut` never pushes. */
  lemma CutGitWithoutPush(w: World, version: string)
    ensures var r := CutGitSpec(w, version, false);
            |w.git.log| <= |r.world.git.log| && forall i :: |w.git.log| <= i < |r.world.git.log| ==> !IsPush(r.world.git.log[i])
  {
    CutGitLog(w, version, false);
    NoPushAdded(w.git.log, CutGitSpec(w, version, false).world.git.log, CutCommands(version, ReleaseVersionFiles(w.files), false));
  }

  /** Without `--push`, `cut` never pushes. */
  lemma PushOnlyWhenRequested(w: World, version: Option<string>)
    ensures var r := CutSpec(w, version, false);
            |w.git.log| <= |r.world.git.log| && forall i :: |w.git.log| <= i < |r.world.git.log| ==> !IsPush(r.world.git.log[i])
  {
    if EnsureVersionInput(version).Ok? {
      var n := EnsureVersionInput(version).value;
      var prepared := PrepareSpec(w, Some(n));
      if prepared.result.Ok? && prepared.world.exitCode == 0 {
        assert CutSpec(w, version, false) == CutGitSpec(prepared.world, n, false);
        CutGitWithoutPush(prepared.world, n);
      }
    }
  }

  // ---------------------------------------------------------------------
  // `check --fix` and `prepare`
  // ---------------------------------------------------------------------

  /** An updater config that the repair turns into one passing both config checks. */
  predicate ConfigRepairable(config: Json) {
    config.JObject?
    && Mergeable(Lookup(config.fields, "bundle")) && Mergeable(Lookup(config.fields, "plugins"))
    && Mergeable(OptionalMember(Lookup(config.fields, "plugins"), "updater"))
  }

  /** A workflow that the three rewrites turn into one passing all four workflow checks. */
  predicate WorkflowRepairable(s: string) {
    TagBlockFrom(s, 0).Some?
    && DraftSettingFrom(RewriteTagTrigger(s), 0).Some?
    && var drafted := ForceDraftFalse(RewriteTagTrigger(s));
       if Contains(drafted, ValidatorCommand) then Contains(drafted, TagRefGuard)
       else CheckoutBlockFrom(drafted, 0).Some?
  }

  /** The fix phase, when it finishes, leaves the updater config and the workflow as the repairs make them. */
  lemma FixedFiles(files: FileStore, canonical: string)
    requires FixSpec(files, canonical).Ok?
    requires TauriConfigPath in files && files[TauriConfigPath].Doc? && files[TauriConfigPath].json.JObject?
    ensures var aligned := AlignVersionsSpec(files, canonical).value;
            var fixed := FixSpec(files, canonical).value;
            TauriConfigPath in fixed && ReleaseWorkflowPath in fixed && ReleaseWorkflowPath in files
            && fixed[TauriConfigPath] == Doc(FixUpdaterConfig(aligned[TauriConfigPath].json).value)
            && aligned[TauriConfigPath].Doc? && aligned[TauriConfigPath].json.JObject?
            && (forall key :: key != "version" ==>
                  Lookup(aligned[TauriConfigPath].json.fields, key) == Lookup(files[TauriConfigPath].json.fields, key))
            && files[ReleaseWorkflowPath].Text?
            && fixed[ReleaseWorkflowPath] == Text(FixWorkflowText(files[ReleaseWorkflowPath].text))
  {
    var aligned := AlignVersionsSpec(files, canonical).value;
    AlignedConfigKeepsFields(files, canonical);
    WorkflowNotAligned();
    AlignTouchesOnlyVersionFiles(files, canonical, ReleaseWorkflowPath);
    var configured := FixTauriUpdaterConfig(aligned).value;
    assert configured[ReleaseWorkflowPath] == aligned[ReleaseWorkflowPath];
  }

  /** After the fix phase on a repairable updater config, both config checks pass. */
  lemma FixPassesConfigChecks(files: FileStore, canonical: string)
    requires FixSpec(files, canonical).Ok?
    requires TauriConfigPath in files && files[TauriConfigPath].Doc? && ConfigRepairable(files[TauriConfigPath].json)
    ensures var fixed := FixSpec(files, canonical).value;
            TauriConfigPath in fixed && fixed[TauriConfigPath].Doc? && fixed[TauriConfigPath].json.JObject?
            && CheckConfig(fixed[TauriConfigPath].json.fields) == ConfigChecks(true, true)
  {
    FixedFiles(files, canonical);
    var aligned := AlignVersionsSpec(files, canonical).value;
    var config := aligned[TauriConfigPath].json;
    assert Lookup(config.fields, "bundle") == Lookup(files[TauriConfigPath].json.fields, "bundle");
    assert Lookup(config.fields, "plugins") == Lookup(files[TauriConfigPath].json.fields, "plugins");
    FixedConfigPassesChecks(config);
  }

  /** After the fix phase on a repairable workflow, all four workflow checks pass. */
  lemma FixPassesWorkflowChecks(files: FileStore, canonical: string)
    requires FixSpec(files, canonical).Ok?
    requires TauriConfigPath in files && files[TauriConfigPath].Doc? && files[TauriConfigPath].json.JObject?
    requires ReleaseWorkflowPath in files && files[ReleaseWorkflowPath].Text?
    requires WorkflowRepairable(files[ReleaseWorkflowPath].text)
    ensures var fixed := FixSpec(files, canonical).value;
            ReleaseWorkflowPath in fixed && fixed[ReleaseWorkflowPath].Text?
            && CheckWorkflow(fixed[ReleaseWorkflowPath].text) == WorkflowChecks(true, true, true, true)
  {
    FixedFiles(files, canonical);
    FixedWorkflowPassesChecks(files[ReleaseWorkflowPath].text);
  }

  /**
   * `check --fix` on a tree whose updater config and workflow the repairs
   * can handle reports no structural issue: whatever is left is about
   * versions or the tag.
   */
  lemma FixLeavesNoStructuralIssues(w: World, version: Option<string>, tag: Option<string>, x: Issue)
    requires CheckSpec(w, true, version, tag).result.Ok?
    requires TauriConfigPath in w.files && w.files[TauriConfigPath].Doc?
    requires ConfigRepairable(w.files[TauriConfigPath].json)
    requires ReleaseWorkflowPath in w.files && w.files[ReleaseWorkflowPath].Text?
    requires WorkflowRepairable(w.files[ReleaseWorkflowPath].text)
    requires IsStructural(x)
    ensures x !in CheckSpec(w, true, version, tag).result.value.issues
  {
    CheckFixIsValidate(w, version, tag);
    var target := TargetVersion(version).value;
    var c := if target.Some? && target.value != "" then target.value else ReadPackageJsonVersion(w.files).value;
    FixedTreeHasNoStructuralIssues(w.files, c, tag, x);
  }

  /** Validating the fixed tree finds no structural issue when the config and the workflow could be repaired. */
  lemma FixedTreeHasNoStructuralIssues(files: FileStore, c: string, tag: Option<string>, x: Issue)
    requires FixSpec(files, c).Ok? && ValidationSpec(FixSpec(files, c).value, Some(c), tag).Ok?
    requires TauriConfigPath in files && files[TauriConfigPath].Doc?
    requires ConfigRepairable(files[TauriConfigPath].json)
    requires ReleaseWorkflowPath in files && files[ReleaseWorkflowPath].Text?
    requires WorkflowRepairable(files[ReleaseWorkflowPath].text)
    requires IsStructural(x)
    ensures x !in ValidationSpec(FixSpec(files, c).value, Some(c), tag).value.issues
  {
    var fixed := FixSpec(files, c).value;
    FixPassesConfigChecks(files, c);
    FixPassesWorkflowChecks(files, c);
    ValidationIssues(fixed, Some(c), tag);
    var versions := CurrentVersions(fixed).value;
    var checks := CheckConfig(fixed[TauriConfigPath].json.fields);
    var workflow := CheckWorkflow(fixed[ReleaseWorkflowPath].text);
    StructuralIssuesExact(versions, checks, workflow, Some(c), tag, x);
  }

  /**
   * The fix phase, when it finishes on a tree whose two JSON documents are
   * objects and whose lock records each sit on one line, leaves every
   * location `currentVersions` reads holding the canonical version: the
   * config repair keeps the `version` key and the workflow holds none.
   */
  lemma FixedTreeIsAligned(files: FileStore, c: string)
    requires FixSpec(files, c).Ok? && |c| > 0 && '"' !in c && '\n' !in c
    requires PackageJsonPath in files && files[PackageJsonPath].Doc? && files[PackageJsonPath].json.JObject?
    requires TauriConfigPath in files && files[TauriConfigPath].Doc? && files[TauriConfigPath].json.JObject?
    requires LockRecordsOnOneLine(files)
    ensures var fixed := FixSpec(files, c).value;
            CurrentVersions(fixed).Ok?
            && forall i :: 0 <= i < |CurrentVersions(fixed).value| ==> CurrentVersions(fixed).value[i].1 == c
  {
    var aligned := AlignVersionsSpec(files, c).value;
    var fixed := FixSpec(files, c).value;
    AlignedVersions(files, c);
    FixedFiles(files, c);
    var config := aligned[TauriConfigPath].json;
    FixKeepsOtherKeys(config);
    assert Lookup(fixed[TauriConfigPath].json.fields, "version") == Lookup(config.fields, "version");
    assert ReadTauriVersion(fixed) == ReadTauriVersion(aligned);
    var configured := FixTauriUpdaterConfig(aligned).value;
    assert fixed == configured[ReleaseWorkflowPath := Text(FixWorkflowText(configured[ReleaseWorkflowPath].text))];
    RepairsKeepVersions(aligned, fixed);
  }

  /** Two trees that differ only in the updater config and the workflow, and agree on the config's version, read the same versions. */
  lemma RepairsKeepVersions(aligned: FileStore, fixed: FileStore)
    requires aligned.Keys == fixed.Keys
    requires forall p :: p in aligned && p != TauriConfigPath && p != ReleaseWorkflowPath ==> fixed[p] == aligned[p]
    requires ReadTauriVersion(fixed) == ReadTauriVersion(aligned)
    ensures CurrentVersions(fixed) == CurrentVersions(aligned)
  {
    ReleasePathsDistinct();
    assert ReadPackageJsonVersion(fixed) == ReadPackageJsonVersion(aligned);
    assert ReadCargoVersion(fixed, TauriCargoTomlPath) == ReadCargoVersion(aligned, TauriCargoTomlPath);
    assert ReadCargoVersion(fixed, CoreCargoTomlPath) == ReadCargoVersion(aligned, CoreCargoTomlPath);
    assert ReadCargoVersion(fixed, ServerCargoTomlPath) == ReadCargoVersion(aligned, ServerCargoTomlPath);
    LockReadsKept(aligned, fixed);
  }

  /** The lock records of two trees that agree on the three lock files read the same. */
  lemma LockReadsKept(aligned: FileStore, fixed: FileStore)
    requires aligned.Keys == fixed.Keys
    requires forall p :: p in aligned && p != TauriConfigPath && p != ReleaseWorkflowPath ==> fixed[p] == aligned[p]
    ensures LockReads(fixed) == LockReads(aligned)
  {
    ReleasePathsDistinct();
    assert ReadLockVersion(fixed, CoreCargoLockPath, CorePackage) == ReadLockVersion(aligned, CoreCargoLockPath, CorePackage);
    assert ReadLockVersion(fixed, ServerCargoLockPath, ServerPackage) == ReadLockVersion(aligned, ServerCargoLockPath, ServerPackage);
    assert ReadLockVersion(fixed, ServerCargoLockPath, CorePackage) == ReadLockVersion(aligned, ServerCargoLockPath, CorePackage);
    assert ReadLockVersion(fixed, TauriCargoLockPath, AppPackage) == ReadLockVersion(aligned, TauriCargoLockPath, AppPackage);
    assert ReadLockVersion(fixed, TauriCargoLockPath, CorePackage) == ReadLockVersion(aligned, TauriCargoLockPath, CorePackage);
  }

  /**
   * `check --fix --version v` with a matching tag, or none, on a tree the
   * fix can align reports exactly the config and workflow findings of the
   * fixed tree: no version, mismatch or tag issue is left.
   */
  lemma CheckFixReportsOnlyStructuralIssues(w: World, version: string, tag: Option<string>)
    requires CheckSpec(w, true, Some(version), tag).result.Ok? && version != ""
    requires tag.None? || JsTrim(tag.value) == "v" + version
    requires PackageJsonPath in w.files && w.files[PackageJsonPath].Doc? && w.files[PackageJsonPath].json.JObject?
    requires TauriConfigPath in w.files && w.files[TauriConfigPath].Doc? && w.files[TauriConfigPath].json.JObject?
    requires LockRecordsOnOneLine(w.files)
    ensures FixSpec(w.files, version).Ok?
    ensures var fixed := FixSpec(w.files, version).value;
            TauriConfigPath in fixed && fixed[TauriConfigPath].Doc? && fixed[TauriConfigPath].json.JObject?
            && ReleaseWorkflowPath in fixed && fixed[ReleaseWorkflowPath].Text?
            && CheckSpec(w, true, Some(version), tag).result.value.issues
               == StructuralIssues(CheckConfig(fixed[TauriConfigPath].json.fields), CheckWorkflow(fixed[ReleaseWorkflowPath].text))
  {
    CheckFixIsValidate(w, Some(version), tag);
    assert TargetVersion(Some(version)) == Ok(Some(version));
    SemverOnOneLine(version);
    var fixed := FixSpec(w.files, version).value;
    FixedTreeIsAligned(w.files, version);
    ValidationIssues(fixed, Some(version), tag);
    AlignedTreeHasNoVersionIssues(CurrentVersions(fixed).value, CheckConfig(fixed[TauriConfigPath].json.fields),
                                  CheckWorkflow(fixed[ReleaseWorkflowPath].text), version, tag);
  }

  /** A semver version holds no quote and no line break. */
  lemma SemverOnOneLine(version: string)
    requires IsSemver(version)
    ensures |version| > 0 && '"' !in version && '\n' !in version
  {
    SemverCharacters(version);
    forall k | 0 <= k < |version| ensures version[k] != '\n' {
      assert IsPrereleaseChar(version[k]);
    }
  }

  /** A successful `check --fix` is the validation of the fixed tree against the canonical version. */
  lemma CheckFixIsValidate(w: World, version: Option<string>, tag: Option<string>)
    requires CheckSpec(w, true, version, tag).result.Ok?
    ensures TargetVersion(version).Ok?
    ensures var target := TargetVersion(version).value;
            (target.Some? && target.value != "") || ReadPackageJsonVersion(w.files).Ok?
    ensures var target := TargetVersion(version).value;
            var c := if target.Some? && target.value != "" then target.value else ReadPackageJsonVersion(w.files).value;
            FixSpec(w.files, c).Ok?
            && CheckSpec(w, true, version, tag).result == ValidationSpec(FixSpec(w.files, c).value, Some(c), tag)
  {
  }

  /** A successful validation lists the findings of the checks run on the tree. */
  lemma ValidationIssues(files: FileStore, expectedVersion: Option<string>, expectedTag: Option<string>)
    requires ValidationSpec(files, expectedVersion, expectedTag).Ok?
    ensures TauriConfigPath in files && files[TauriConfigPath].Doc? && files[TauriConfigPath].json.JObject?
    ensures ReleaseWorkflowPath in files && files[ReleaseWorkflowPath].Text?
    ensures ValidationSpec(files, expectedVersion, expectedTag).value.issues
              == Findings(CurrentVersions(files).value, CheckConfig(files[TauriConfigPath].json.fields),
                          CheckWorkflow(files[ReleaseWorkflowPath].text), expectedVersion, expectedTag)
  {
  }

  /** The fix phase writes the core manifest only through aligning. */
  lemma FixedCoreManifest(files: FileStore, canonical: string)
    requires FixSpec(files, canonical).Ok?
    ensures var fixed := FixSpec(files, canonical).value;
            ReadCargoVersion(fixed, CoreCargoTomlPath) == ReadCargoVersion(AlignVersionsSpec(files, canonical).value, CoreCargoTomlPath)
  {
    var aligned := AlignVersionsSpec(files, canonical).value;
    var configured := FixTauriUpdaterConfig(aligned).value;
    var fixed := FixReleaseWorkflow(configured).value;
    assert FixSpec(files, canonical).value == fixed;
    assert CoreCargoTomlPath in fixed <==> CoreCargoTomlPath in aligned;
    if CoreCargoTomlPath in aligned {
      assert fixed[CoreCargoTomlPath] == aligned[CoreCargoTomlPath];
    }
  }

  /** A successful `prepare` leaves the version in the core manifest and a tree whose versions can all be read. */
  lemma PreparedTree(w: World, version: string)
    requires PrepareSpec(w, Some(version)).result.Ok?
    ensures IsSemver(version) && |version| > 0 && '"' !in version
    ensures FixSpec(w.files, version).Ok? && PrepareSpec(w, Some(version)).world.files == FixSpec(w.files, version).value
    ensures var prepared := PrepareSpec(w, Some(version)).world.files;
            ReadCargoVersion(prepared, CoreCargoTomlPath) == Ok(version) && CurrentVersions(prepared).Ok?
  {
    assert EnsureVersionInput(Some(version)) == Ok(version);
    SemverCharacters(version);
    assert TargetVersion(Some(version)) == Ok(Some(version));
    assert FixSpec(w.files, version).Ok?;
    AlignedManifests(w.files, version);
    FixedCoreManifest(w.files, version);
  }

  /**
   * `cut` after a successful `prepare` of the same version always throws
   * at the core manifest: `prepare` wrote the version there, and the
   * manifest writer refuses a replacement that changes nothing. Git is
   * never reached.
   */
  lemma CutAfterPrepareFails(w: World, version: string, push: bool)
    requires PrepareSpec(w, Some(version)).result.Ok?
    ensures var prepared := PrepareSpec(w, Some(version)).world;
            var r := CutSpec(prepared, Some(version), push);
            r.result == Err(CargoVersionNotUpdated(CoreCargoTomlPath)) && r.world.git == w.git
  {
    PreparedTree(w, version);
    var prepared := PrepareSpec(w, Some(version)).world;
    var fixed := prepared.files;
    assert ReadPackageJsonVersion(fixed).Ok?;
    AlignedTreeStopsAtCoreManifest(fixed, version);
    assert FixSpec(fixed, version).Err? && FixSpec(fixed, version).error.error == CargoVersionNotUpdated(CoreCargoTomlPath);
    assert EnsureVersionInput(Some(version)) == Ok(version);
    assert TargetVersion(Some(version)) == Ok(Some(version));
    assert PrepareSpec(prepared, Some(version)).result == Err(CargoVersionNotUpdated(CoreCargoTomlPath));
  }
}
