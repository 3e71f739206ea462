/**
 * The `check`, `prepare` and `cut` commands over a working tree and a git
 * repository. The process's side effects are the state of a `Workspace`:
 * its files, the git repository and the process exit code.
 */
module ReleaseCommands {
  import opened Wrappers
  import opened ReleaseBase
  import opened ReleaseInput
  import opened ReleaseAdapters
  import opened ReleaseLockAdapter
  import opened ReleaseValidation
  import opened ReleaseFixes
  import opened ReleaseAlign

  // ---------------------------------------------------------------------
  // Git
  // ---------------------------------------------------------------------

  /**
   * The repository as git sees it: the committed contents, the staged
   * paths, the tags, every command issued so far, and the commands that
   * exit with an error for reasons outside the tool (no repository, a
   * hook, the network).
   */
  datatype GitState = GitState(head: FileStore, staged: set<string>, tags: set<string>,
                               log: seq<GitCommand>, failing: set<GitCommand>)

  /** The listed paths whose working content differs from the committed one. */
  function Changed(files: FileStore, head: FileStore, paths: seq<string>): set<string> {
    set p | p in paths && p in files && (p !in head || head[p] != files[p])
  }

  /** The committed contents once the staged paths are committed. */
  function CommitStaged(head: FileStore, files: FileStore, staged: set<string>): FileStore {
    map p | p in head.Keys + (staged * files.Keys) :: if p in staged && p in files then files[p] else head[p]
  }

  /** `run(cmd)` for one git command: the new state, and whether it exited with status 0. */
  function GitRun(git: GitState, files: FileStore, cmd: GitCommand): (r: (GitState, bool))
    ensures r.0.log == git.log + [cmd] && r.0.failing == git.failing
    ensures cmd in git.failing ==> !r.1 && r.0 == git.(log := git.log + [cmd])
    ensures git.tags <= r.0.tags
  {
    var logged := git.(log := git.log + [cmd]);
    if cmd in git.failing then (logged, false)
    else
      match cmd
      case RevParseTag(tag) => (logged, tag in git.tags)
      case Add(paths) =>
        if forall i :: 0 <= i < |paths| ==> paths[i] in files then
          (logged.(staged := git.staged + Changed(files, git.head, paths)), true)
        else (logged, false)
      case DiffCachedNames => (logged, true)
      case Commit(_) =>
        if git.staged == {} then (logged, false)
        else (logged.(head := CommitStaged(git.head, files, git.staged), staged := {}), true)
      case AnnotatedTag(tag, _) =>
        if tag in git.tags then (logged, false) else (logged.(tags := git.tags + {tag}), true)
      case PushHead => (logged, true)
      case PushTag(_) => (logged, true)
  }

  // ---------------------------------------------------------------------
  // The commands as functions of the state
  // ---------------------------------------------------------------------

  /** Everything a run can change: the files, git, and `process.exitCode`. */
  datatype World = World(files: FileStore, git: GitState, exitCode: nat)

  /** The state after a command and what it returned or threw. */
  datatype Outcome<T> = Outcome(world: World, result: Result<T, ReleaseError>)

  /** How `cut` ends when nothing was thrown. */
  datatype CutReport = NotCut | TagCreated(tag: string, pushed: bool)

  /** `if (targetVersion) targetVersion = ensureVersionInput(targetVersion)`. */
  function TargetVersion(version: Option<string>): (r: Result<Option<string>, ReleaseError>)
    ensures r.Ok? ==> r.value == version
    ensures r.Err? <==> version.Some? && version.value != "" && !IsSemver(version.value)
  {
    if version.Some? && version.value != "" then
      match EnsureVersionInput(version)
      case Ok(v) => Ok(Some(v))
      case Err(e) => Err(BadVersionInput(e))
    else Ok(version)
  }

  /** A repair step inside the fix phase: its files, or where it threw. */
  function Halted(files: FileStore, r: Result<FileStore, ReleaseError>): Result<FileStore, Halt> {
    match r
    case Ok(next) => Ok(next)
    case Err(e) => Err(Halt(files, e))
  }

  /** The `--fix` phase: align every version, then repair the config and the workflow. */
  function FixSpec(files: FileStore, canonical: string): Result<FileStore, Halt> {
    var aligned :- AlignVersionsSpec(files, canonical);
    var configured :- Halted(aligned, FixTauriUpdaterConfig(aligned));
    Halted(configured, FixReleaseWorkflow(configured))
  }

  /** Validation, with the exit code set to 1 when issues are found. */
  function ValidateSpec(w: World, expectedVersion: Option<string>, expectedTag: Option<string>)
    : (r: Outcome<Validation>)
    ensures r.world.files == w.files && r.world.git == w.git
  {
    match ValidationSpec(w.files, expectedVersion, expectedTag)
    case Err(e) => Outcome(w, Err(e))
    case Ok(v) => Outcome(if |v.issues| > 0 then w.(exitCode := 1) else w, Ok(v))
  }

  /** `doCheck({ fix, version, tag })`. */
  function CheckSpec(w: World, fix: bool, version: Option<string>, tag: Option<string>): (r: Outcome<Validation>)
    ensures r.world.git == w.git
    ensures !fix ==> r.world.files == w.files
  {
    match TargetVersion(version)
    case Err(e) => Outcome(w, Err(e))
    case Ok(target) =>
      if !fix then ValidateSpec(w, target, tag)
      else
        var canonical := if target.Some? && target.value != "" then Ok(target.value) else ReadPackageJsonVersion(w.files);
        match canonical
        case Err(e) => Outcome(w, Err(e))
        case Ok(c) =>
          match FixSpec(w.files, c)
          case Err(h) => Outcome(w.(files := h.files), Err(h.error))
          case Ok(fixed) => ValidateSpec(w.(files := fixed), Some(c), tag)
  }

  /** `doPrepare(version)`: a checked version, then `check --fix` with its tag. */
  function PrepareSpec(w: World, version: Option<string>): (r: Outcome<Validation>)
    ensures r.world.git == w.git
    ensures EnsureVersionInput(version).Err? ==> r == Outcome(w, Err(BadVersionInput(EnsureVersionInput(version).error)))
  {
    match EnsureVersionInput(version)
    case Err(e) => Outcome(w, Err(BadVersionInput(e)))
    case Ok(n) => CheckSpec(w, true, Some(n), Some("v" + n))
  }

  /** The commit message of a release. */
  function CommitMessage(version: string): string {
    "chore(release): v" + version
  }

  /** The git commands that publish a release, in order; the pushes only when asked for. */
  function PublishCommands(version: string, push: bool): seq<GitCommand> {
    var tag := "v" + version;
    [Commit(CommitMessage(version)), AnnotatedTag(tag, "Release " + tag)]
    + (if push then [PushHead, PushTag(tag)] else [])
  }

  /** The git commands of a full cut, in order. */
  function CutCommands(version: string, paths: seq<string>, push: bool): (r: seq<GitCommand>)
    ensures |r| == if push then 7 else 5
    ensures r[0] == RevParseTag("v" + version) && r[1] == Add(paths)
    ensures forall i :: 0 <= i < 5 ==> !r[i].PushHead? && !r[i].PushTag?
    ensures push ==> r[5] == PushHead && r[6] == PushTag("v" + version)
  {
    [RevParseTag("v" + version), Add(paths), DiffCachedNames] + PublishCommands(version, push)
  }

  /** Commit, annotated tag, then the optional pushes; a failing command throws. */
  function PublishSpec(w: World, version: string, push: bool): Outcome<CutReport> {
    var tag := "v" + version;
    var commit := Commit(CommitMessage(version));
    var (g1, committed) := GitRun(w.git, w.files, commit);
    if !committed then Outcome(w.(git := g1), Err(GitFailed(commit)))
    else
      var tagging := AnnotatedTag(tag, "Release " + tag);
      var (g2, tagged) := GitRun(g1, w.files, tagging);
      if !tagged then Outcome(w.(git := g2), Err(GitFailed(tagging)))
      else if !push then Outcome(w.(git := g2), Ok(TagCreated(tag, false)))
      else
        var (g3, pushedHead) := GitRun(g2, w.files, PushHead);
        if !pushedHead then Outcome(w.(git := g3), Err(GitFailed(PushHead)))
        else
          var (g4, pushedTag) := GitRun(g3, w.files, PushTag(tag));
          if !pushedTag then Outcome(w.(git := g4), Err(GitFailed(PushTag(tag))))
          else Outcome(w.(git := g4), Ok(TagCreated(tag, true)))
  }

  /**
   * The git part of `doCut`: `ensureTagAbsent` (a tag that `rev-parse`
   * finds aborts; any failure of `rev-parse` counts as absent), staging,
   * the staged-diff guard, then publishing.
   */
  function CutGitSpec(w: World, version: string, push: bool): Outcome<CutReport> {
    var tag := "v" + version;
    var (g1, found) := GitRun(w.git, w.files, RevParseTag(tag));
    if found then Outcome(w.(git := g1), Err(TagAlreadyExists(tag)))
    else
      var add := Add(ReleaseVersionFiles(w.files));
      var (g2, added) := GitRun(g1, w.files, add);
      if !added then Outcome(w.(git := g2), Err(GitFailed(add)))
      else
        var (g3, listed) := GitRun(g2, w.files, DiffCachedNames);
        if !listed then Outcome(w.(git := g3), Err(GitFailed(DiffCachedNames)))
        else if g3.staged == {} then Outcome(w.(git := g3), Err(NoStagedChanges))
        else PublishSpec(w.(git := g3), version, push)
  }

  /** `doCut(version, push)`. */
  function CutSpec(w: World, version: Option<string>, push: bool): Outcome<CutReport> {
    match EnsureVersionInput(version)
    case Err(e) => Outcome(w, Err(BadVersionInput(e)))
    case Ok(n) =>
      var prepared := PrepareSpec(w, Some(n));
      if prepared.result.Err? then Outcome(prepared.world, Err(prepared.result.error))
      else if prepared.world.exitCode != 0 then Outcome(prepared.world, Ok(NotCut))
      else CutGitSpec(prepared.world, n, push)
  }

  // ---------------------------------------------------------------------
  // The commands as methods on the process state
  // ---------------------------------------------------------------------

  /** The working tree, the git repository and the exit code of one process. */
  class Workspace {
    var files: FileStore
    var git: GitState
    var exitCode: nat

    constructor (files: FileStore, git: GitState)
      ensures this.files == files && this.git == git && exitCode == 0
    {
      this.files := files;
      this.git := git;
      exitCode := 0;
    }

    function State(): World
      reads this
    {
      World(files, git, exitCode)
    }

    /** `run(cmd)` for a git command; `false` is a non-zero exit status. */
    method Run(cmd: GitCommand) returns (ok: bool)
      modifies this
      ensures (git, ok) == GitRun(old(git), old(files), cmd)
      ensures files == old(files) && exitCode == old(exitCode)
    {
      var (next, status) := GitRun(git, files, cmd);
      git := next;
      ok := status;
    }

    /** One version write, applied to the files if it succeeds. */
    method Write(w: VersionWrite, version: string, ghost next: seq<VersionWrite>) returns (err: Option<ReleaseError>)
      modifies this
      ensures ApplyWrites(old(files), [w] + next, version)
              == if err.None? then ApplyWrites(files, next, version) else Err(Halt(files, err.value))
      ensures git == old(git) && exitCode == old(exitCode)
    {
      var r := ApplyWrite(files, w, version);
      if r.Err? {
        return Some(r.error);
      }
      files := r.value;
      return None;
    }

    /** `alignVersions(version)`: ten writes, stopping at the first that throws. */
    method AlignVersions(version: string) returns (err: Option<ReleaseError>)
      modifies this
      ensures AlignVersionsSpec(old(files), version) == if err.None? then Ok(files) else Err(Halt(files, err.value))
      ensures git == old(git) && exitCode == old(exitCode)
    {
      ghost var after: seq<VersionWrite> := [];
      ghost var after9 := [JsonWrite(TauriConfigPath)] + after;
      ghost var after8 := [LockWrite(TauriCargoLockPath, CorePackage)] + after9;
      ghost var after7 := [LockWrite(TauriCargoLockPath, AppPackage)] + after8;
      ghost var after6 := [CargoWrite(TauriCargoTomlPath)] + after7;
      ghost var after5 := [CargoWrite(ServerCargoTomlPath)] + after6;
      ghost var after4 := [LockWrite(ServerCargoLockPath, CorePackage)] + after5;
      ghost var after3 := [LockWrite(ServerCargoLockPath, ServerPackage)] + after4;
      ghost var after2 := [CargoWrite(CoreCargoTomlPath)] + after3;
      ghost var after1 := [LockWrite(CoreCargoLockPath, CorePackage)] + after2;
      assert [JsonWrite(PackageJsonPath)] + after1 == AlignOrder;
      err := Write(JsonWrite(PackageJsonPath), version, after1);
      if err.Some? { return; }
      err := Write(LockWrite(CoreCargoLockPath, CorePackage), version, after2);
      if err.Some? { return; }
      err := Write(CargoWrite(CoreCargoTomlPath), version, after3);
      if err.Some? { return; }
      err := Write(LockWrite(ServerCargoLockPath, ServerPackage), version, after4);
      if err.Some? { return; }
      err := Write(LockWrite(ServerCargoLockPath, CorePackage), version, after5);
      if err.Some? { return; }
      err := Write(CargoWrite(ServerCargoTomlPath), version, after6);
      if err.Some? { return; }
      err := Write(CargoWrite(TauriCargoTomlPath), version, after7);
      if err.Some? { return; }
      err := Write(LockWrite(TauriCargoLockPath, AppPackage), version, after8);
      if err.Some? { return; }
      err := Write(LockWrite(TauriCargoLockPath, CorePackage), version, after9);
      if err.Some? { return; }
      err := Write(JsonWrite(TauriConfigPath), version, after);
    }

    /** The `--fix` phase; the files keep every write made before a throw. */
    method Fix(canonical: string) returns (err: Option<ReleaseError>)
      modifies this
      ensures FixSpec(old(files), canonical) == if err.None? then Ok(files) else Err(Halt(files, err.value))
      ensures git == old(git) && exitCode == old(exitCode)
    {
      err := AlignVersions(canonical);
      if err.Some? {
        return;
      }
      var configured := FixTauriUpdaterConfig(files);
      if configured.Err? {
        return Some(configured.error);
      }
      files := configured.value;
      var repaired := FixReleaseWorkflow(files);
      if repaired.Err? {
        return Some(repaired.error);
      }
      files := repaired.value;
    }

    /** `validateReleaseConfig` and `printIssues`: exit code 1 when anything is reported. */
    method Validate(expectedVersion: Option<string>, expectedTag: Option<string>) returns (r: Result<Validation, ReleaseError>)
      modifies this
      ensures Outcome(State(), r) == ValidateSpec(old(State()), expectedVersion, expectedTag)
    {
      r := ValidateReleaseConfig(files, expectedVersion, expectedTag);
      if r.Ok? && |r.value.issues| > 0 {
        exitCode := 1;
      }
    }

    /** `doCheck({ fix, version, tag })`. */
    method DoCheck(fix: bool, version: Option<string>, tag: Option<string>) returns (r: Result<Validation, ReleaseError>)
      modifies this
      ensures Outcome(State(), r) == CheckSpec(old(State()), fix, version, tag)
    {
      var target := version;
      if version.Some? && version.value != "" {
        var checked := EnsureVersionInput(version);
        if checked.Err? {
          return Err(BadVersionInput(checked.error));
        }
        target := Some(checked.value);
      }
      if fix {
        var canonical: string;
        if target.Some? && target.value != "" {
          canonical := target.value;
        } else {
          var read := ReadPackageJsonVersion(files);
          if read.Err? {
            return Err(read.error);
          }
          canonical := read.value;
        }
        var err := Fix(canonical);
        if err.Some? {
          return Err(err.value);
        }
        target := Some(canonical);
      }
      r := Validate(target, tag);
    }

    /** `doPrepare(version)`. */
    method DoPrepare(version: Option<string>) returns (r: Result<Validation, ReleaseError>)
      modifies this
      ensures Outcome(State(), r) == PrepareSpec(old(State()), version)
    {
      var normalized := EnsureVersionInput(version);
      if normalized.Err? {
        return Err(BadVersionInput(normalized.error));
      }
      r := DoCheck(true, Some(normalized.value), Some("v" + normalized.value));
    }

    /** `ensureTagAbsent(tag)`: only a successful `rev-parse` means the tag exists. */
    method EnsureTagAbsent(tag: string) returns (r: Result<(), ReleaseError>)
      modifies this
      ensures git == GitRun(old(git), old(files), RevParseTag(tag)).0
      ensures r == if GitRun(old(git), old(files), RevParseTag(tag)).1 then Err(TagAlreadyExists(tag)) else Ok(())
      ensures files == old(files) && exitCode == old(exitCode)
    {
      var found := Run(RevParseTag(tag));
      if found {
        return Err(TagAlreadyExists(tag));
      }
      return Ok(());
    }

    /** `doCut(version, shouldPush)`. */
    method DoCut(version: Option<string>, push: bool) returns (r: Result<CutReport, ReleaseError>)
      modifies this
      ensures Outcome(State(), r) == CutSpec(old(State()), version, push)
    {
      var normalized := EnsureVersionInput(version);
      if normalized.Err? {
        return Err(BadVersionInput(normalized.error));
      }
      var n := normalized.value;
      var tag := "v" + n;
      var prepared := DoPrepare(Some(n));
      if prepared.Err? {
        return Err(prepared.error);
      }
      if exitCode != 0 {
        return Ok(NotCut);
      }
      var absent := EnsureTagAbsent(tag);
      if absent.Err? {
        return Err(absent.error);
      }
      var add := Add(ReleaseVersionFiles(files));
      var ok := Run(add);
      if !ok {
        return Err(GitFailed(add));
      }
      ok := Run(DiffCachedNames);
      if !ok {
        return Err(GitFailed(DiffCachedNames));
      }
      if git.staged == {} {
        return Err(NoStagedChanges);
      }
      var commit := Commit(CommitMessage(n));
      ok := Run(commit);
      if !ok {
        return Err(GitFailed(commit));
      }
      var tagging := AnnotatedTag(tag, "Release " + tag);
      ok := Run(tagging);
      if !ok {
        return Err(GitFailed(tagging));
      }
      if push {
        ok := Run(PushHead);
        if !ok {
          return Err(GitFailed(PushHead));
        }
        ok := Run(PushTag(tag));
        if !ok {
          return Err(GitFailed(PushTag(tag)));
        }
      }
      return Ok(TagCreated(tag, push));
    }
  }
}
