/**
 * `alignVersions`: ten writes in a fixed order. The first exception ends
 * the run; the writes before it stay on disk.
 */
module ReleaseAlign {
  import opened Wrappers
  import opened JsonModel
  import opened ReleaseBase
  import opened ReleaseAdapters
  import opened ReleaseLockAdapter
  import opened ReleaseLockRecords
  import opened ReleaseValidation

  /** One version write: a JSON `version` field, a lock record, or a manifest. */
  datatype VersionWrite =
    | JsonWrite(path: string)
    | LockWrite(path: string, name: string)
    | CargoWrite(path: string)

  /** The writes of `alignVersions`, in source order. */
  const AlignOrder: seq<VersionWrite> := [
    JsonWrite(PackageJsonPath),
    LockWrite(CoreCargoLockPath, CorePackage),
    CargoWrite(CoreCargoTomlPath),
    LockWrite(ServerCargoLockPath, ServerPackage),
    LockWrite(ServerCargoLockPath, CorePackage),
    CargoWrite(ServerCargoTomlPath),
    CargoWrite(TauriCargoTomlPath),
    LockWrite(TauriCargoLockPath, AppPackage),
    LockWrite(TauriCargoLockPath, CorePackage),
    JsonWrite(TauriConfigPath)
  ]

  /** The files `alignVersions` may write. */
  const AlignedPaths: set<string> := {PackageJsonPath, CoreCargoLockPath, CoreCargoTomlPath, ServerCargoLockPath,
                                      ServerCargoTomlPath, TauriCargoTomlPath, TauriCargoLockPath, TauriConfigPath}

  /** `b` has the paths of `a` and differs from it at most at `path`. */
  predicate ChangedAtMost(a: FileStore, b: FileStore, path: string) {
    b.Keys == a.Keys && forall p :: p in a && p != path ==> b[p] == a[p]
  }

  /** One write, by its adapter. */
  function ApplyWrite(files: FileStore, w: VersionWrite, version: string): (r: Result<FileStore, ReleaseError>)
    ensures r.Ok? ==> ChangedAtMost(files, r.value, w.path)
  {
    match w
    case JsonWrite(path) => WriteJsonVersion(files, path, version)
    case LockWrite(path, name) => WriteLockVersion(files, path, name, version)
    case CargoWrite(path) => WriteCargoVersion(files, path, version)
  }

  /** An exception that ended a run, with the files as the run left them. */
  datatype Halt = Halt(files: FileStore, error: ReleaseError)

  /** Writes applied in turn; the first error stops the run and nothing is undone. */
  function ApplyWrites(files: FileStore, writes: seq<VersionWrite>, version: string): (r: Result<FileStore, Halt>)
    decreases |writes|
  {
    if writes == [] then Ok(files)
    else
      match ApplyWrite(files, writes[0], version)
      case Err(e) => Err(Halt(files, e))
      case Ok(next) => ApplyWrites(next, writes[1..], version)
  }

  /** The files after a run, whether it finished or stopped. */
  function FilesAfter(r: Result<FileStore, Halt>): FileStore {
    if r.Ok? then r.value else r.error.files
  }

  /** `alignVersions(version)`. */
  function AlignVersionsSpec(files: FileStore, version: string): Result<FileStore, Halt> {
    ApplyWrites(files, AlignOrder, version)
  }

  /** A path no write targets keeps its content, and no path appears or disappears. */
  lemma {:induction false} WritesFrame(files: FileStore, writes: seq<VersionWrite>, version: string, p: string)
    requires forall i :: 0 <= i < |writes| ==> writes[i].path != p
    ensures FilesAfter(ApplyWrites(files, writes, version)).Keys == files.Keys
    ensures p in files ==> FilesAfter(ApplyWrites(files, writes, version))[p] == files[p]
    decreases |writes|
  {
    if writes != [] && ApplyWrite(files, writes[0], version).Ok? {
      var next := ApplyWrite(files, writes[0], version).value;
      WritesFrame(next, writes[1..], version, p);
    }
  }

  /** A run splits at any point: the first part, then the rest from where it left off. */
  lemma {:induction false} WritesSplit(files: FileStore, writes: seq<VersionWrite>, k: nat, version: string)
    requires k <= |writes|
    ensures ApplyWrites(files, writes, version)
            == (var first := ApplyWrites(files, writes[..k], version);
                if first.Err? then first else ApplyWrites(first.value, writes[k..], version))
    decreases k
  {
    if k > 0 {
      assert writes[..k][0] == writes[0] && writes[..k][1..] == writes[1..][..k - 1];
      assert writes[k..] == writes[1..][k - 1..];
      if ApplyWrite(files, writes[0], version).Ok? {
        WritesSplit(ApplyWrite(files, writes[0], version).value, writes[1..], k - 1, version);
      }
    }
  }

  /**
   * What reading a location gives right after its write succeeded, given
   * the files the write started from.
   */
  predicate ReadsBack(before: FileStore, after: FileStore, w: VersionWrite, version: string) {
    match w
    case JsonWrite(path) =>
      path in before && before[path].Doc? && before[path].json.JObject? ==> ReadJsonVersion(after, path) == Ok(version)
    case CargoWrite(path) => ReadCargoVersion(after, path) == Ok(version)
    case LockWrite(path, name) =>
      ReadLockVersion(after, path, w.name)
        == if path in before && before[path].Text? && LockVersionSpan(before[path].text, name).Some?
           then Ok(Some(version)) else Ok(None)
  }

  /** A successful write of a version without quotes reads back as that version. */
  lemma WriteReadsBack(files: FileStore, w: VersionWrite, version: string)
    requires ApplyWrite(files, w, version).Ok? && |version| > 0 && '"' !in version
    ensures ReadsBack(files, ApplyWrite(files, w, version).value, w, version)
  {
    match w
    case JsonWrite(path) =>
      if files[path].json.JObject? {
        JsonVersionRoundTrip(files, path, version);
      }
    case CargoWrite(path) =>
      CargoWriteThenRead(files, path, version);
    case LockWrite(path, name) =>
      if path in files && files[path].Text? && LockVersionSpan(files[path].text, name).Some? {
        LockWriteThenRead(files, path, name, version);
      }
  }

  /** Reading a location depends only on that location's file. */
  lemma ReadsBackLocal(before: FileStore, after: FileStore, later: FileStore, w: VersionWrite, version: string)
    requires ReadsBack(before, after, w, version)
    requires (w.path in later <==> w.path in after) && (w.path in after ==> later[w.path] == after[w.path])
    ensures ReadsBack(before, later, w, version)
  {
  }

  /**
   * In a run that finishes, the last write to a location decides what
   * that location reads afterwards.
   */
  lemma LastWriteReadsBack(files: FileStore, writes: seq<VersionWrite>, k: nat, version: string)
    requires ApplyWrites(files, writes, version).Ok? && |version| > 0 && '"' !in version
    requires k < |writes| && forall j :: k < j < |writes| ==> writes[j].path != writes[k].path
    ensures ApplyWrites(files, writes[..k], version).Ok?
    ensures ReadsBack(ApplyWrites(files, writes[..k], version).value, ApplyWrites(files, writes, version).value,
                      writes[k], version)
  {
    WritesSplit(files, writes, k, version);
    var before := ApplyWrites(files, writes[..k], version).value;
    var rest := writes[k..];
    assert rest[0] == writes[k];
    var after := ApplyWrite(before, writes[k], version).value;
    WriteReadsBack(before, writes[k], version);
    forall i | 0 <= i < |rest[1..]| ensures rest[1..][i].path != writes[k].path {
      assert rest[1..][i] == writes[k + 1 + i];
    }
    WritesFrame(after, rest[1..], version, writes[k].path);
    ReadsBackLocal(before, after, ApplyWrites(files, writes, version).value, writes[k], version);
  }

  /** The release workflow is not a version file. */
  lemma WorkflowNotAligned()
    ensures ReleaseWorkflowPath !in AlignedPaths
  {
    assert ReleaseWorkflowPath[0] == '.';
    assert forall p :: p in AlignedPaths ==> |p| > 0 && p[0] != '.';
  }

  /** Aligning never creates or deletes a file and touches only the version files. */
  lemma AlignTouchesOnlyVersionFiles(files: FileStore, version: string, p: string)
    requires p !in AlignedPaths
    ensures FilesAfter(AlignVersionsSpec(files, version)).Keys == files.Keys
    ensures p in files ==> FilesAfter(AlignVersionsSpec(files, version))[p] == files[p]
  {
    WritesFrame(files, AlignOrder, version, p);
  }

  /**
   * On a tree whose core manifest already holds the version, aligning to
   * that version throws at the core manifest, after writing `package.json`
   * and the core lock file, which stay written.
   */
  lemma AlignedTreeStopsAtCoreManifest(files: FileStore, version: string)
    requires ReadCargoVersion(files, CoreCargoTomlPath) == Ok(version)
    requires WriteJsonVersion(files, PackageJsonPath, version).Ok?
    requires ReadLockVersion(files, CoreCargoLockPath, CorePackage).Ok?
    ensures var f1 := WriteJsonVersion(files, PackageJsonPath, version).value;
            WriteLockVersion(f1, CoreCargoLockPath, CorePackage, version).Ok?
            && AlignVersionsSpec(files, version)
               == Err(Halt(WriteLockVersion(f1, CoreCargoLockPath, CorePackage, version).value,
                           CargoVersionNotUpdated(CoreCargoTomlPath)))
  {
    var f1 := WriteJsonVersion(files, PackageJsonPath, version).value;
    var f2 := WriteLockVersion(f1, CoreCargoLockPath, CorePackage, version).value;
    assert ReadCargoVersion(f2, CoreCargoTomlPath) == Ok(version);
    var rest := AlignOrder[1..];
    assert rest[0] == LockWrite(CoreCargoLockPath, CorePackage);
    assert rest[1..][0] == CargoWrite(CoreCargoTomlPath);
    assert ApplyWrites(files, AlignOrder, version) == ApplyWrites(f1, rest, version);
    assert ApplyWrites(f1, rest, version) == ApplyWrites(f2, rest[1..], version);
  }

  /** After a finished run, each manifest holds the version. */
  lemma AlignedManifests(files: FileStore, version: string)
    requires AlignVersionsSpec(files, version).Ok? && |version| > 0 && '"' !in version
    ensures var out := AlignVersionsSpec(files, version).value;
            ReadCargoVersion(out, CoreCargoTomlPath) == Ok(version)
            && ReadCargoVersion(out, ServerCargoTomlPath) == Ok(version)
            && ReadCargoVersion(out, TauriCargoTomlPath) == Ok(version)
  {
    AlignOrderEntries();
    ManifestWrittenLast(files, version, 2);
    ManifestWrittenLast(files, version, 5);
    ManifestWrittenLast(files, version, 6);
  }

  /** The entries of the write order, one by one. */
  lemma AlignOrderEntries()
    ensures |AlignOrder| == 10
    ensures AlignOrder[0] == JsonWrite(PackageJsonPath) && AlignOrder[1] == LockWrite(CoreCargoLockPath, CorePackage)
    ensures AlignOrder[2] == CargoWrite(CoreCargoTomlPath) && AlignOrder[3] == LockWrite(ServerCargoLockPath, ServerPackage)
    ensures AlignOrder[4] == LockWrite(ServerCargoLockPath, CorePackage) && AlignOrder[5] == CargoWrite(ServerCargoTomlPath)
    ensures AlignOrder[6] == CargoWrite(TauriCargoTomlPath) && AlignOrder[7] == LockWrite(TauriCargoLockPath, AppPackage)
    ensures AlignOrder[8] == LockWrite(TauriCargoLockPath, CorePackage) && AlignOrder[9] == JsonWrite(TauriConfigPath)
  {
  }

  /** Each manifest is written once, so its write is the last one to its file. */
  lemma ManifestWrittenLast(files: FileStore, version: string, k: nat)
    requires AlignVersionsSpec(files, version).Ok? && |version| > 0 && '"' !in version
    requires k == 2 || k == 5 || k == 6
    ensures ReadCargoVersion(AlignVersionsSpec(files, version).value, AlignOrder[k].path) == Ok(version)
  {
    forall j | k < j < |AlignOrder| ensures AlignOrder[j].path != AlignOrder[k].path {
      assert |AlignOrder[j].path| != |AlignOrder[k].path| || AlignOrder[j].path[4] != AlignOrder[k].path[4]
             || AlignOrder[j].path[|AlignOrder[j].path| - 1] != AlignOrder[k].path[|AlignOrder[k].path| - 1];
    }
    LastWriteReadsBack(files, AlignOrder, k, version);
  }

  /** After a finished run, both JSON documents that are objects hold the version. */
  lemma AlignedDocuments(files: FileStore, version: string)
    requires AlignVersionsSpec(files, version).Ok? && |version| > 0 && '"' !in version
    ensures var out := AlignVersionsSpec(files, version).value;
            ((PackageJsonPath in files && files[PackageJsonPath].Doc? && files[PackageJsonPath].json.JObject?)
               ==> ReadPackageJsonVersion(out) == Ok(version))
            && ((TauriConfigPath in files && files[TauriConfigPath].Doc? && files[TauriConfigPath].json.JObject?)
               ==> ReadTauriVersion(out) == Ok(version))
  {
    LastWriteReadsBack(files, AlignOrder, 0, version);
    assert AlignOrder[..0] == [];
    LastWriteReadsBack(files, AlignOrder, 9, version);
    WritesFrame(files, AlignOrder[..9], version, TauriConfigPath);
  }

  /** After a finished run, an updater config that was an object keeps every field but `version`. */
  lemma AlignedConfigKeepsFields(files: FileStore, version: string)
    requires AlignVersionsSpec(files, version).Ok?
    requires TauriConfigPath in files && files[TauriConfigPath].Doc? && files[TauriConfigPath].json.JObject?
    ensures var out := AlignVersionsSpec(files, version).value;
            TauriConfigPath in out && out[TauriConfigPath].Doc? && out[TauriConfigPath].json.JObject?
            && forall key :: key != "version" ==>
                 Lookup(out[TauriConfigPath].json.fields, key) == Lookup(files[TauriConfigPath].json.fields, key)
  {
    AlignOrderEntries();
    WritesSplit(files, AlignOrder, 9, version);
    WritesFrame(files, AlignOrder[..9], version, TauriConfigPath);
    var before := ApplyWrites(files, AlignOrder[..9], version).value;
    assert AlignOrder[9..] == [JsonWrite(TauriConfigPath)];
    JsonVersionRoundTrip(before, TauriConfigPath, version);
  }

  /** The package names have no quotes and differ from one another. */
  lemma PackageNames()
    ensures '"' !in CorePackage && '"' !in ServerPackage && '"' !in AppPackage
    ensures CorePackage != ServerPackage && CorePackage != AppPackage
  {
    assert forall k :: 0 <= k < |CorePackage| ==> CorePackage[k] != '"';
    assert forall k :: 0 <= k < |ServerPackage| ==> ServerPackage[k] != '"';
    assert forall k :: 0 <= k < |AppPackage| ==> AppPackage[k] != '"';
    assert |CorePackage| != |ServerPackage| && |CorePackage| != |AppPackage|;
  }

  /** The four records that share a lock file hold versions without line breaks. */
  predicate LockRecordsOnOneLine(files: FileStore) {
    OneLineRecord(files, ServerCargoLockPath, ServerPackage) && OneLineRecord(files, ServerCargoLockPath, CorePackage)
    && OneLineRecord(files, TauriCargoLockPath, AppPackage) && OneLineRecord(files, TauriCargoLockPath, CorePackage)
  }

  /**
   * Two consecutive writes of a finished run into the same lock file, to
   * two different packages, with no other write to that file: both
   * records read back as the version exactly when they were there.
   */
  lemma LockPairInRun(files: FileStore, writes: seq<VersionWrite>, version: string, k: nat, path: string, a: string, b: string)
    requires ApplyWrites(files, writes, version).Ok? && |version| > 0 && '"' !in version && '\n' !in version
    requires k + 1 < |writes| && writes[k] == LockWrite(path, a) && writes[k + 1] == LockWrite(path, b)
    requires forall j :: 0 <= j < |writes| && j != k && j != k + 1 ==> writes[j].path != path
    requires '"' !in a && '"' !in b && a != b && OneLineRecord(files, path, a) && OneLineRecord(files, path, b)
    ensures var out := ApplyWrites(files, writes, version).value;
            ReadLockVersion(out, path, a) == ExpectedRecord(files, path, a, version)
            && ReadLockVersion(out, path, b) == ExpectedRecord(files, path, b, version)
  {
    WritesSplit(files, writes, k, version);
    forall j | 0 <= j < |writes[..k]| ensures writes[..k][j].path != path {
      assert writes[..k][j] == writes[j];
    }
    WritesFrame(files, writes[..k], version, path);
    var f := ApplyWrites(files, writes[..k], version).value;
    var rest := writes[k..];
    WritesSplit(f, rest, 2, version);
    var once := WriteLockVersion(f, path, a, version).value;
    var twice := WriteLockVersion(once, path, b, version).value;
    PairOfWrites(f, rest[..2], version, path, a, b);
    forall j | 0 <= j < |rest[2..]| ensures rest[2..][j].path != path {
      assert rest[2..][j] == writes[k + 2 + j];
    }
    WritesFrame(twice, rest[2..], version, path);
    LockWritePair(f, path, a, b, version);
  }

  /** A run of two lock writes is the one write, then the other. */
  lemma PairOfWrites(f: FileStore, pair: seq<VersionWrite>, version: string, path: string, a: string, b: string)
    requires pair == [LockWrite(path, a), LockWrite(path, b)]
    ensures ApplyWrites(f, pair, version).Ok? ==>
              WriteLockVersion(f, path, a, version).Ok?
              && WriteLockVersion(WriteLockVersion(f, path, a, version).value, path, b, version).Ok?
              && ApplyWrites(f, pair, version)
                 == Ok(WriteLockVersion(WriteLockVersion(f, path, a, version).value, path, b, version).value)
  {
    var tail := pair[1..];
    assert tail == [LockWrite(path, b)] && tail[1..] == [];
    match ApplyWrite(f, pair[0], version)
    case Err(_) =>
    case Ok(once) =>
      assert ApplyWrites(f, pair, version) == ApplyWrites(once, tail, version);
      match ApplyWrite(once, tail[0], version)
      case Err(_) =>
      case Ok(twice) =>
        assert ApplyWrites(once, tail, version) == ApplyWrites(twice, tail[1..], version) == Ok(twice);
  }

  /** The server lock file is written twice in a row, and by nothing else. */
  lemma ServerLockWrites()
    ensures 4 < |AlignOrder| && AlignOrder[3] == LockWrite(ServerCargoLockPath, ServerPackage)
    ensures AlignOrder[4] == LockWrite(ServerCargoLockPath, CorePackage)
    ensures forall j :: 0 <= j < |AlignOrder| && j != 3 && j != 4 ==> AlignOrder[j].path != ServerCargoLockPath
  {
    AlignOrderEntries();
    ReleasePathsDistinct();
  }

  /** The Tauri lock file is written twice in a row, and by nothing else. */
  lemma TauriLockWrites()
    ensures 8 < |AlignOrder| && AlignOrder[7] == LockWrite(TauriCargoLockPath, AppPackage)
    ensures AlignOrder[8] == LockWrite(TauriCargoLockPath, CorePackage)
    ensures forall j :: 0 <= j < |AlignOrder| && j != 7 && j != 8 ==> AlignOrder[j].path != TauriCargoLockPath
  {
    AlignOrderEntries();
    ReleasePathsDistinct();
  }

  /**
   * After a finished run, each of the five lock records that
   * `currentVersions` reads holds the version exactly when the record was
   * there before.
   */
  lemma AlignedLockRecords(files: FileStore, version: string)
    requires AlignVersionsSpec(files, version).Ok? && |version| > 0 && '"' !in version && '\n' !in version
    requires LockRecordsOnOneLine(files)
    ensures var out := AlignVersionsSpec(files, version).value;
            ReadLockVersion(out, CoreCargoLockPath, CorePackage) == ExpectedRecord(files, CoreCargoLockPath, CorePackage, version)
            && ReadLockVersion(out, ServerCargoLockPath, ServerPackage) == ExpectedRecord(files, ServerCargoLockPath, ServerPackage, version)
            && ReadLockVersion(out, ServerCargoLockPath, CorePackage) == ExpectedRecord(files, ServerCargoLockPath, CorePackage, version)
            && ReadLockVersion(out, TauriCargoLockPath, AppPackage) == ExpectedRecord(files, TauriCargoLockPath, AppPackage, version)
            && ReadLockVersion(out, TauriCargoLockPath, CorePackage) == ExpectedRecord(files, TauriCargoLockPath, CorePackage, version)
  {
    PackageNames();
    AlignedCoreLockRecord(files, version);
    ServerLockWrites();
    LockPairInRun(files, AlignOrder, version, 3, ServerCargoLockPath, ServerPackage, CorePackage);
    TauriLockWrites();
    LockPairInRun(files, AlignOrder, version, 7, TauriCargoLockPath, AppPackage, CorePackage);
  }

  /** The core lock file's record, written once, holds the version exactly when it was there. */
  lemma AlignedCoreLockRecord(files: FileStore, version: string)
    requires AlignVersionsSpec(files, version).Ok? && |version| > 0 && '"' !in version
    ensures ReadLockVersion(AlignVersionsSpec(files, version).value, CoreCargoLockPath, CorePackage)
            == ExpectedRecord(files, CoreCargoLockPath, CorePackage, version)
  {
    LastWriteReadsBack(files, AlignOrder, 1, version);
    WritesFrame(files, AlignOrder[..1], version, CoreCargoLockPath);
  }

  /**
   * After a finished run on a tree whose two JSON documents are objects,
   * `currentVersions` reads every location, and every location holds the
   * version.
   */
  lemma AlignedVersions(files: FileStore, version: string)
    requires AlignVersionsSpec(files, version).Ok? && |version| > 0 && '"' !in version && '\n' !in version
    requires LockRecordsOnOneLine(files)
    requires PackageJsonPath in files && files[PackageJsonPath].Doc? && files[PackageJsonPath].json.JObject?
    requires TauriConfigPath in files && files[TauriConfigPath].Doc? && files[TauriConfigPath].json.JObject?
    ensures var out := AlignVersionsSpec(files, version).value;
            CurrentVersions(out).Ok?
            && forall i :: 0 <= i < |CurrentVersions(out).value| ==> CurrentVersions(out).value[i].1 == version
  {
    var out := AlignVersionsSpec(files, version).value;
    AlignedManifests(files, version);
    AlignedDocuments(files, version);
    AlignedLockRecords(files, version);
    assert VersionOrAbsent(ReadLockVersion(out, CoreCargoLockPath, CorePackage), version);
    assert VersionOrAbsent(ReadLockVersion(out, ServerCargoLockPath, ServerPackage), version);
    assert VersionOrAbsent(ReadLockVersion(out, ServerCargoLockPath, CorePackage), version);
    assert VersionOrAbsent(ReadLockVersion(out, TauriCargoLockPath, AppPackage), version);
    assert VersionOrAbsent(ReadLockVersion(out, TauriCargoLockPath, CorePackage), version);
    MandatoryReadsAre(out, version);
    LockReadsAre(out, version);
    CollectedAre(MandatoryReads(out), LockReads(out), version);
  }

  /** A lock read that found the version, or found no record. */
  predicate VersionOrAbsent(r: Result<Option<string>, ReleaseError>, version: string) {
    r == Ok(None) || r == Ok(Some(version))
  }

  /** The five mandatory reads, when each holds the version, in the shape `CollectedAre` asks for. */
  lemma MandatoryReadsAre(out: FileStore, version: string)
    requires ReadPackageJsonVersion(out) == Ok(version) && ReadTauriVersion(out) == Ok(version)
    requires ReadCargoVersion(out, CoreCargoTomlPath) == Ok(version) && ReadCargoVersion(out, ServerCargoTomlPath) == Ok(version)
    requires ReadCargoVersion(out, TauriCargoTomlPath) == Ok(version)
    ensures forall i :: 0 <= i < |MandatoryReads(out)| ==> HoldsVersion(MandatoryReads(out)[i].1, version)
  {
    var m := MandatoryReads(out);
    assert HoldsVersion(m[0].1, version) && HoldsVersion(m[1].1, version) && HoldsVersion(m[2].1, version);
    assert HoldsVersion(m[3].1, version) && HoldsVersion(m[4].1, version);
    FiveHold(m, version);
  }

  /** Five labelled reads, each holding the version. */
  lemma FiveHold(m: seq<(string, Result<string, ReleaseError>)>, version: string)
    requires |m| == 5 && HoldsVersion(m[0].1, version) && HoldsVersion(m[1].1, version) && HoldsVersion(m[2].1, version)
    requires HoldsVersion(m[3].1, version) && HoldsVersion(m[4].1, version)
    ensures forall i :: 0 <= i < |m| ==> HoldsVersion(m[i].1, version)
  {
  }

  /** A mandatory read that found the version. */
  predicate HoldsVersion(r: Result<string, ReleaseError>, version: string) {
    r == Ok(version)
  }

  /** The five lock reads, when each holds the version or nothing, in the shape `CollectedAre` asks for. */
  lemma LockReadsAre(out: FileStore, version: string)
    requires VersionOrAbsent(ReadLockVersion(out, CoreCargoLockPath, CorePackage), version)
    requires VersionOrAbsent(ReadLockVersion(out, ServerCargoLockPath, ServerPackage), version)
    requires VersionOrAbsent(ReadLockVersion(out, ServerCargoLockPath, CorePackage), version)
    requires VersionOrAbsent(ReadLockVersion(out, TauriCargoLockPath, AppPackage), version)
    requires VersionOrAbsent(ReadLockVersion(out, TauriCargoLockPath, CorePackage), version)
    ensures forall i :: 0 <= i < |LockReads(out)| ==> VersionOrAbsent(LockReads(out)[i].1, version)
  {
    var l := LockReads(out);
    forall i | 0 <= i < |l| ensures VersionOrAbsent(l[i].1, version) {
      if i == 0 {} else if i == 1 {} else if i == 2 {} else if i == 3 {} else {}
    }
  }

  /** When each mandatory read is the version and each lock read the version or absent, everything collected is the version. */
  lemma CollectedAre(mandatory: seq<(string, Result<string, ReleaseError>)>, locks: seq<(string, Result<Option<string>, ReleaseError>)>, version: string)
    requires forall i :: 0 <= i < |mandatory| ==> HoldsVersion(mandatory[i].1, version)
    requires forall i :: 0 <= i < |locks| ==> VersionOrAbsent(locks[i].1, version)
    ensures Collect(mandatory).Ok? && CollectFound(locks).Ok?
    ensures var all := Collect(mandatory).value + CollectFound(locks).value;
            forall i :: 0 <= i < |all| ==> all[i].1 == version
  {
    var m := Collect(mandatory).value;
    var l := CollectFound(locks).value;
    var all := m + l;
    forall i | 0 <= i < |all| ensures all[i].1 == version {
      if i < |m| {
        assert all[i] == m[i];
      } else {
        assert all[i] == l[i - |m|];
        assert l[i - |m|] in l;
      }
    }
  }
}
