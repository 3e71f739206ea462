/**
 * Shared vocabulary of the release tool: the repository paths it touches,
 * the updater endpoint it enforces, the abstract file store it reads and
 * rewrites, the git commands it issues and the errors that abort it.
 */
module ReleaseBase {
  import opened Wrappers
  import opened JsonModel

  const PackageJsonPath := "package.json"
  const CoreCargoTomlPath := "src-core/Cargo.toml"
  const ServerCargoTomlPath := "src-server/Cargo.toml"
  const TauriCargoTomlPath := "src-tauri/Cargo.toml"
  const CoreCargoLockPath := "src-core/Cargo.lock"
  const ServerCargoLockPath := "src-server/Cargo.lock"
  const TauriCargoLockPath := "src-tauri/Cargo.lock"
  const TauriConfigPath := "src-tauri/tauri.conf.json"
  const ReleaseWorkflowPath := ".github/workflows/release.yml"

  const CorePackage := "panorama_core"
  const ServerPackage := "panorama-server"
  const AppPackage := "panorama-app"

  const UpdaterEndpoint := "https://github.com/galza-guo/Panorama/releases/latest/download/latest.json"

  /**
   * A repository file: plain text, or a JSON file held as its parsed
   * document. A `Text` entry at a JSON path stands for text that
   * `JSON.parse` rejects.
   */
  datatype FileContent = Text(text: string) | Doc(json: Json)

  /** The working tree: each present path and its content. */
  type FileStore = map<string, FileContent>

  /** Why a version argument is refused, in the order the tool checks. */
  datatype VersionInputError = MissingVersion | LeadingV | InvalidSemver

  /** The git invocations of the `cut` command, as structured values. */
  datatype GitCommand =
    | RevParseTag(tag: string)
    | Add(paths: seq<string>)
    | DiffCachedNames
    | Commit(message: string)
    | AnnotatedTag(tag: string, message: string)
    | PushHead
    | PushTag(tag: string)

  /** Every exception the tool can raise; each ends the run with exit status 1. */
  datatype ReleaseError =
    | FileMissing(path: string)
    | InvalidJson(path: string)
    | NotTextFile(path: string)
    | JsTypeError(path: string)
    | NoStringVersion(path: string)
    | CargoVersionNotFound(path: string)
    | CargoVersionNotUpdated(path: string)
    | BadVersionInput(reason: VersionInputError)
    | TagAlreadyExists(tag: string)
    | NoStagedChanges
    | GitFailed(command: GitCommand)

  /** The release paths are pairwise different. */
  lemma ReleasePathsDistinct()
    ensures CoreCargoLockPath != PackageJsonPath && CoreCargoLockPath != CoreCargoTomlPath && CoreCargoLockPath != ServerCargoTomlPath
    ensures CoreCargoLockPath != TauriCargoTomlPath && CoreCargoLockPath != ServerCargoLockPath && CoreCargoLockPath != TauriCargoLockPath
    ensures CoreCargoLockPath != TauriConfigPath && CoreCargoLockPath != ReleaseWorkflowPath && ServerCargoLockPath != PackageJsonPath
    ensures ServerCargoLockPath != CoreCargoTomlPath && ServerCargoLockPath != ServerCargoTomlPath && ServerCargoLockPath != TauriCargoTomlPath
    ensures ServerCargoLockPath != TauriCargoLockPath && ServerCargoLockPath != TauriConfigPath && ServerCargoLockPath != ReleaseWorkflowPath
    ensures TauriCargoLockPath != PackageJsonPath && TauriCargoLockPath != CoreCargoTomlPath && TauriCargoLockPath != ServerCargoTomlPath
    ensures TauriCargoLockPath != TauriCargoTomlPath && TauriCargoLockPath != TauriConfigPath && TauriCargoLockPath != ReleaseWorkflowPath
    ensures ReleaseWorkflowPath != PackageJsonPath && ReleaseWorkflowPath != CoreCargoTomlPath && ReleaseWorkflowPath != ServerCargoTomlPath
    ensures ReleaseWorkflowPath != TauriCargoTomlPath && ReleaseWorkflowPath != TauriConfigPath
  {
  }

  /** `path` when the file exists, else nothing. */
  function IfPresent(files: FileStore, path: string): (r: seq<string>)
    ensures forall x :: x in r <==> x == path && path in files
  {
    if path in files then [path] else []
  }

  /** The files `cut` stages, in order: lock files only when they exist. */
  function ReleaseVersionFiles(files: FileStore): (paths: seq<string>)
    ensures PackageJsonPath in paths && CoreCargoTomlPath in paths && ServerCargoTomlPath in paths
    ensures TauriCargoTomlPath in paths && TauriConfigPath in paths
    ensures CoreCargoLockPath in paths <==> CoreCargoLockPath in files
    ensures ServerCargoLockPath in paths <==> ServerCargoLockPath in files
    ensures TauriCargoLockPath in paths <==> TauriCargoLockPath in files
    ensures ReleaseWorkflowPath !in paths
  {
    ReleasePathsDistinct();
    [PackageJsonPath] + IfPresent(files, CoreCargoLockPath) + [CoreCargoTomlPath]
    + IfPresent(files, ServerCargoLockPath) + [ServerCargoTomlPath, TauriCargoTomlPath]
    + IfPresent(files, TauriCargoLockPath) + [TauriConfigPath]
  }

  /** The text of a file, or why it cannot be read as text. */
  function ReadText(files: FileStore, path: string): (r: Result<string, ReleaseError>)
    ensures r.Ok? <==> path in files && files[path].Text?
    ensures path !in files ==> r == Err(FileMissing(path))
  {
    if path !in files then Err(FileMissing(path))
    else match files[path]
      case Text(t) => Ok(t)
      case Doc(_) => Err(NotTextFile(path))
  }

  /** `JSON.parse(readFile(path))`. */
  function ReadJson(files: FileStore, path: string): (r: Result<Json, ReleaseError>)
    ensures r.Ok? <==> path in files && files[path].Doc?
    ensures path !in files ==> r == Err(FileMissing(path))
  {
    if path !in files then Err(FileMissing(path))
    else match files[path]
      case Doc(j) => Ok(j)
      case Text(_) => Err(InvalidJson(path))
  }
}
