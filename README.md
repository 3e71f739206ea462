# Panorama core, modelled in Dafny

Panorama is a desktop and web portfolio tracker (a Tauri application with a
Rust core, a TypeScript front end and an Axum web server). This project models,
and proves properties of, the parts of it that make decisions:

- **The release tool** (`scripts/release.mjs`). It keeps one version string in
  agreement across `package.json`, three `Cargo.toml` files, the Tauri config
  and the optional `Cargo.lock` files. It checks the release workflow and the
  updater settings, and it runs the `check`, `prepare` and `cut` commands over
  git. The model works on an abstract repository: a map from path to file
  content, and a git state made of tags, staged paths and a command log. The
  process's side effects are the fields of a `Workspace` class.
- **Market data.** This covers symbol normalisation and data-source inference,
  the Tiantian fund and EastMoney A-share providers, and the market-data
  service's algorithms:
  - filling quote gaps day by day;
  - planning a sync window per symbol;
  - validating, classifying and converting imported quotes;
  - normalising MPF fund names.
- **Exchange rates.** This covers the Open Exchange Rates client (the rate
  table and the cross-rate computation) and the automatic exchange management
  (the managed-currency set, pair registration and rate upserts).
- **Front-end helpers.** This covers route normalisation and visibility in the
  navigation, asset classification from stored attributes, and the
  attribute-merge and submit logic of the MPF asset and insurance policy editor
  sheets.
- **Web-server job configuration** (`src-server/src/api/shared.rs`). This is
  how requests and data changes become portfolio-job configurations, and how
  the exchange-rate provider is chosen.

How the source is represented:

- Decimals are `real` and timestamps are milliseconds since the Unix epoch.
  Calendar days are days since the epoch.
- Foreign parsers (decimal, date and number parsing, `JSON.parse`,
  `normalize_currency_code`, `get_days_between`, `normalizeMpfSubfunds`) are
  function parameters.
- HTTP responses are inputs.

Two consequences of the code worth knowing:

- **Unchanged Cargo.toml write.** `writeCargoVersion`
  (scripts/release.mjs:186-196) throws whenever its replacement leaves the
  text unchanged. So `check --fix` or `prepare` on a tree whose
  `src-core/Cargo.toml` already holds the version fails there, and so does a
  `cut` after a `prepare` of the same version
  (`ReleaseCommandFacts.CutAfterPrepareFails`).
- **Cash-flow-only assets.** The classification code never reads the
  cash-flow fields, while its third test expects an asset with only those
  fields to be insurance; see "## Findings".

## Model

| member | source | states |
|---|---|---|
| ReleaseBase.ReleaseVersionFiles | scripts/release.mjs:29-44 | the staged files always include package.json, the three Cargo.toml files and tauri.conf.json; each lock file is included exactly when it exists; the release workflow never is |
| ReleaseBase.ReadText | scripts/release.mjs:17-19 | reading succeeds exactly on an existing text file; a missing file is a FileMissing error |
| ReleaseBase.ReadJson | scripts/release.mjs:110-116 | reading succeeds exactly on an existing file held as a parsed JSON document; a missing file is a FileMissing error |
| ReleaseInput.SemverScannerMatchesPattern | scripts/release.mjs:59-61 | the hand-written scanner accepts exactly the strings the version pattern (digits.digits.digits with an optional pre-release tail) generates |
| ReleaseInput.RenderedPartsAreSemver | scripts/release.mjs:59-61 | every well-formed set of version parts renders to a string `isSemver` accepts |
| ReleaseInput.SemverStartsWithDigit | scripts/release.mjs:59-61 | an accepted version starts with a digit, so never with `v` |
| ReleaseInput.SemverCharacters | scripts/release.mjs:59-61 | an accepted version is non-empty and holds only digits, dots, ASCII letters and `-`, so no quote of either kind |
| ReleaseInput.EnsureVersionInput | scripts/release.mjs:97-108 | a missing or empty version is refused, then a leading `v`, then anything off the pattern; an accepted version is returned unchanged and matches the pattern (an if-and-only-if per error) |
| ReleaseInput.EscapeWithoutQuotes | scripts/release.mjs:55-57 | escaping a text without single quotes changes nothing |
| ReleaseInput.QuoteSplitsAtQuote | scripts/release.mjs:55-57 | quoting a text with a quote gives the text before it, an escaped quote, then the rest quoted again |
| ReleaseInput.QuoteRoundTrip | scripts/release.mjs:55-57 | a POSIX shell reads `quote(value)` back as exactly `value`, as a single word, whatever the value holds |
| ReleaseInput.SplitFlag | scripts/release.mjs:78 | without `=` the whole body is the key and there is no inline value; with one, the key and the value are both free of `=` |
| ReleaseInput.ParseArgs | scripts/release.mjs:63-95 | the loop over the tokens returns what the recursive definition of the pass returns |
| ReleaseInput.PositionalComeFromTokens | scripts/release.mjs:63-95 | every positional argument is a token after the command that does not start with `--`, in order |
| ReleaseInput.ParseFromExtend | scripts/release.mjs:63-95 | appending a `--` token does not change how the earlier tokens are read: the pass over the longer list continues from where the shorter one stopped |
| ReleaseInput.TrailingFlagSetsOnlyItsKey | scripts/release.mjs:84-87 | a trailing `--flag` sets that one key (to its inline text, or to `true`) and leaves the command, the positional list and every other flag as they were |
| ReleaseInput.PlainTokensArePositional | scripts/release.mjs:63-95 | with no `--` token every token after the command is positional and no flag is set |
| ReleaseInput.ParseBareFlagStep | scripts/release.mjs:78-88 | a `--key` token without `=` followed by another `--` token sets `key` to `true` and moves on by one token |
| ReleaseInput.ParseValuedFlagStep | scripts/release.mjs:78-91 | a `--key` token without `=` followed by a non-empty token that is not a flag takes that token as its value and skips it |
| ReleaseInput.ParseCheckExample | scripts/release.mjs:459 | `check --fix --version 0.1.0 --tag v0.1.0` gives the command `check`, no positional argument, and the three flags |
| ReleaseInput.SplitFlagDropsAfterSecondEquals | scripts/release.mjs:78-80 | `--key=value=more` gives `key` the value `value`; the text after a second `=` is dropped |
| ReleaseInput.TextFlag | scripts/release.mjs:478-479 | a flag is read as text exactly when it was given a text value |
| ReleaseInput.Dispatch | scripts/release.mjs:470-494 | `prepare` and `cut` take the first positional argument as the version; help is printed exactly for an unknown command |
| ReleaseAdapters.ReadJsonVersion | scripts/release.mjs:110-116 | the version is read exactly when the file is a JSON object whose `version` is a string, and it is that string |
| ReleaseAdapters.WriteJsonVersion | scripts/release.mjs:118-123 | the write succeeds exactly on a JSON object or array, and changes no other file |
| ReleaseAdapters.JsonVersionRoundTrip | scripts/release.mjs:110-123 | writing a version into a JSON object and reading it back gives that version; every other field and the key order are kept |
| ReleaseAdapters.JsonArrayDropsVersion | scripts/release.mjs:118-123 | a JSON array takes the assignment without keeping it, so its version still cannot be read back |
| ReleaseAdapters.OpeningQuoteAt | scripts/release.mjs:149 | a found opening quote lies after a `version` word at that position |
| ReleaseAdapters.VersionAssignmentAt | scripts/release.mjs:149 | a found capture is a non-empty, quote-free run between two quotes, after the opening quote the scan found |
| ReleaseAdapters.VersionLineFrom | scripts/release.mjs:149 | a found position lies at or after the start and holds a matching assignment |
| ReleaseAdapters.CargoVersionSpan | scripts/release.mjs:147-154 | a found span is a quote-free run between two quotes inside the text |
| ReleaseAdapters.ReadCargoVersion | scripts/release.mjs:147-154 | the read succeeds exactly when the pattern matches in a text file; the version read is non-empty and holds no quote |
| ReleaseAdapters.WriteCargoVersion | scripts/release.mjs:186-196 | a successful write changes no other file; when the current version can be read, the write is refused exactly when it equals the new version; a text without a match is refused too |
| ReleaseAdapters.CargoWriteThenRead | scripts/release.mjs:147-196 | writing a version without quotes then reading gives that version, and the file is the old text with only the version replaced |
| ReleaseAdapters.CargoWriteOfCurrentVersionFails | scripts/release.mjs:189-195 | writing the version a Cargo.toml already holds is refused, because the text would not change |
| ReleaseAdapters.CargoSecondWriteFails | scripts/release.mjs:186-196 | after a successful write, writing the same version again fails |
| ReleaseLockAdapter.LockRecordFrom | scripts/release.mjs:161-167 | a position the scan returns is at or after the start, and the record pattern matches there |
| ReleaseLockAdapter.LockRecordFromIsLeftmost | scripts/release.mjs:161-167 | the pattern matches nowhere between the start and the position found, and nowhere after the start when nothing is found |
| ReleaseLockAdapter.LockVersionSpan | scripts/release.mjs:161-167 | a found span is a non-empty, quote-free run ending at a quote |
| ReleaseLockAdapter.ReadLockVersion | scripts/release.mjs:156-168 | a missing lock file reads as no version; a text file reads a version exactly when its record matches; a version read is non-empty and quote-free |
| ReleaseLockAdapter.WriteLockVersion | scripts/release.mjs:170-184 | a missing file or a missing record leaves the files as they are; a write to a text file never fails and changes no other file |
| ReleaseLockAdapter.LockWriteThenRead | scripts/release.mjs:156-184 | writing a package's version into a lock file that holds its record, then reading it, gives that version |
| ReleaseLockAdapter.LockWriteIdempotent | scripts/release.mjs:170-184 | writing the same version twice leaves the file as the first write left it |
| ReleaseValidation.CurrentVersions | scripts/release.mjs:198-245 | the read succeeds exactly when every mandatory read and every lock read succeeds; then the five mandatory entries (package.json first) come before the found lock entries, between five and ten in all |
| ReleaseValidation.OneDistinctVersionIffAllSame | scripts/release.mjs:298-300 | the set of distinct versions has one element exactly when the collection is non-empty and all its versions agree |
| ReleaseValidation.MismatchIssues | scripts/release.mjs:300-306 | one mismatch issue, listing every location, exactly when the versions are not all the same |
| ReleaseValidation.UnexpectedIssues | scripts/release.mjs:308-314 | an issue for every location off the expected version and only for those; none exactly when every location matches |
| ReleaseValidation.TagIssues | scripts/release.mjs:316-323 | an issue exactly when the trimmed tag differs from `v` plus the expected version, or plus package.json's version when none is expected |
| ReleaseValidation.ConfigIssues | scripts/release.mjs:325-335 | each updater-config issue is reported exactly when its check fails |
| ReleaseValidation.WorkflowIssues | scripts/release.mjs:337-352 | each of the four workflow issues is reported exactly when its check fails |
| ReleaseValidation.Findings | scripts/release.mjs:294-355 | the issues in the order `validateReleaseConfig` pushes them |
| ReleaseValidation.ValidationSpec | scripts/release.mjs:294-355 | validation succeeds exactly when the versions and the workflow can be read, and then reports the versions read |
| ReleaseValidation.ValidateReleaseConfig | scripts/release.mjs:294-355 | the step-by-step validation returns what `ValidationSpec` gives |
| ReleaseValidation.PushUnexpectedIssues | scripts/release.mjs:309-313 | the loop over the locations pushes exactly `UnexpectedIssues` |
| ReleaseValidation.MismatchReportedFirst | scripts/release.mjs:300-306 | the mismatch issue is reported exactly when the locations disagree, and then it comes first |
| ReleaseValidation.ExpectedVersionIssuesExact | scripts/release.mjs:308-314 | one issue per location off the expected version, in location order; none when no version is expected |
| ReleaseValidation.AlignedTreeHasNoVersionIssues | scripts/release.mjs:294-323 | when every location holds the expected version and the trimmed tag (if any) names it, only the structural issues remain |
| ReleaseValidation.StructuralIssuesExact | scripts/release.mjs:325-352 | a config or workflow issue is reported exactly when its own check fails; the version checks never produce one |
| ReleaseFixes.FixedBundle | scripts/release.mjs:262-263 | `bundle || {}` then the artifacts flag: it throws exactly on a truthy primitive; an object or a falsy value ends up an object with the flag set; an array is kept as it is |
| ReleaseFixes.FixedPlugins | scripts/release.mjs:265-267 | `plugins || {}`, `updater || {}`, then the endpoint: it throws exactly when either level is a truthy primitive; objects or falsy values end up with exactly the canonical endpoint |
| ReleaseFixes.FixUpdaterConfig | scripts/release.mjs:260-270 | the repair succeeds exactly on an array, or on an object whose bundle, plugins and updater can take properties; an array is written back as it was |
| ReleaseFixes.FixKeepsOtherKeys | scripts/release.mjs:260-270 | whenever the repair of an object succeeds, every top-level key but bundle and plugins keeps its value, the version included |
| ReleaseFixes.FixedConfigPassesChecks | scripts/release.mjs:260-270 | when bundle, plugins and updater are each falsy or an object, the repaired config passes both updater checks and every other top-level key keeps its value |
| ReleaseFixes.ArrayBundleStaysUnfixed | scripts/release.mjs:262-263 | a truthy bundle array takes the flag without writing it out: the repair succeeds and the artifacts check still fails |
| ReleaseFixes.FixTauriUpdaterConfig | scripts/release.mjs:260-270 | the repair succeeds exactly when the config is a JSON document the in-memory repair accepts; only the config file changes, to the repaired document |
| ReleaseFixes.TagItemEnd | scripts/release.mjs:275 | a found list item ends after its newline |
| ReleaseFixes.TagBlockFrom | scripts/release.mjs:275 | the leftmost `tags:` block with at least one item, at or after a position |
| ReleaseFixes.RewriteTagTrigger | scripts/release.mjs:275 | without a tag block the text is unchanged; with one, the result holds the canonical `- "v*.*.*"` trigger |
| ReleaseFixes.DraftSettingFrom | scripts/release.mjs:276 | the leftmost `releaseDraft:` setting at or after a position, and none when there is no match |
| ReleaseFixes.ForceDraftFalse | scripts/release.mjs:276 | without a draft setting the text is unchanged; with one, the result holds `releaseDraft: false` |
| ReleaseFixes.DraftRewriteKeepsTagTrigger | scripts/release.mjs:275-276 | the draft rewrite keeps the tag trigger the first rewrite put in |
| ReleaseFixes.CheckoutBlockFrom | scripts/release.mjs:280-281 | a found checkout block ends after a newline; none means no position matches |
| ReleaseFixes.InsertValidationStep | scripts/release.mjs:278-289 | the text is unchanged when the command is already there or there is no checkout block; the command is present afterwards exactly when it was or a block was found, and an inserted step carries the tag-ref guard |
| ReleaseFixes.InsertValidationStepIdempotent | scripts/release.mjs:278-289 | inserting twice inserts once |
| ReleaseFixes.InsertKeepsLines | scripts/release.mjs:288 | the insertion keeps every single-line fragment already present |
| ReleaseFixes.FixedWorkflowPassesChecks | scripts/release.mjs:272-292 | when each rewrite finds what it looks for, the repaired workflow passes all four workflow checks |
| ReleaseFixes.UnanchoredStepStaysMissing | scripts/release.mjs:279-289 | without a checkout block the step cannot be added, and the check still reports it missing |
| ReleaseFixes.FixReleaseWorkflow | scripts/release.mjs:272-292 | the repair succeeds exactly when the workflow is a text file, and only that file changes, to the rewritten text |
| ReleaseAlign.ApplyWrite | scripts/release.mjs:247-258 | one write by its adapter changes at most its own file and creates or deletes none |
| ReleaseAlign.WritesFrame | scripts/release.mjs:247-258 | a path no write targets keeps its content, and no path appears or disappears |
| ReleaseAlign.WritesSplit | scripts/release.mjs:247-258 | a run of writes splits at any point into the first part and the rest from where it left off |
| ReleaseAlign.WriteReadsBack | scripts/release.mjs:110-196 | a successful write of a non-empty version without quotes reads back as that version |
| ReleaseAlign.LastWriteReadsBack | scripts/release.mjs:247-258 | in a finished run, the last write to a location decides what it reads afterwards |
| ReleaseAlign.AlignTouchesOnlyVersionFiles | scripts/release.mjs:247-258 | aligning never creates or deletes a file and touches only the version files |
| ReleaseAlign.AlignedTreeStopsAtCoreManifest | scripts/release.mjs:247-250 | aligning a tree whose core manifest already holds the version throws there, after writing package.json and the core lock file, which stay written |
| ReleaseAlign.AlignedManifests | scripts/release.mjs:250-254 | after a finished run each Cargo.toml holds the version |
| ReleaseAlign.AlignedDocuments | scripts/release.mjs:248 | after a finished run both JSON documents that are objects hold the version |
| ReleaseAlign.AlignedConfigKeepsFields | scripts/release.mjs:257 | after a finished run the updater config keeps every field but `version` |
| ReleaseAlign.AlignedLockRecords | scripts/release.mjs:242-253 | after a finished run each of the five lock records reads as the version exactly when the record was there, and as absent otherwise, in all three lock files |
| ReleaseAlign.LockPairInRun | scripts/release.mjs:242-253 | two consecutive writes into one lock file, to two different packages, with no other write to that file: both records read as the version exactly when they were there |
| ReleaseAlign.AlignedVersions | scripts/release.mjs:198-253 | after a finished run on a tree whose JSON documents are objects, `currentVersions` reads every location and every version it collects is the one aligned to |
| ReleaseLockRecords.OtherRecordKept | scripts/release.mjs:170-184 | replacing the version of one package's lock record by a value without quotes or line breaks leaves the version recorded for every other package as it was |
| ReleaseLockRecords.ReadIsRecorded | scripts/release.mjs:154-168 | reading a lock record of a text file gives the version its leftmost record captures, or nothing |
| ReleaseLockRecords.OwnRecordWritten | scripts/release.mjs:170-184 | a written lock record reads back as the new version when the record was there, and as absent otherwise |
| ReleaseLockRecords.WriteKeepsOtherRecord | scripts/release.mjs:170-184 | writing one package's lock record leaves what any other package's record reads as it was |
| ReleaseLockRecords.LockWritePair | scripts/release.mjs:170-184 | writing two packages' records of one lock file in turn leaves both reading as the version exactly when they were there |
| ReleaseCommands.GitRun | scripts/release.mjs:46-53 | running a git command appends it to the log, a failing command changes nothing else, and no tag is ever removed |
| ReleaseCommands.TargetVersion | scripts/release.mjs:369-372 | a given version is checked and returned unchanged; the check fails exactly for a non-empty version off the pattern |
| ReleaseCommands.ValidateSpec | scripts/release.mjs:382-387 | validation changes neither the files nor the repository |
| ReleaseCommands.CheckSpec | scripts/release.mjs:368-395 | `check` never touches git, and without `--fix` it changes no file |
| ReleaseCommands.PrepareSpec | scripts/release.mjs:397-407 | `prepare` never touches git, and a bad version stops it before anything changes |
| ReleaseCommands.CutCommands | scripts/release.mjs:429-447 | the plan starts with `rev-parse` of the tag and `git add` of the release files; five commands without pushes, and the two pushes last only when asked for |
| ReleaseCommands.Workspace.Run | scripts/release.mjs:46-53 | the repository changes as the git command says and the files are unchanged |
| ReleaseCommands.Workspace.Write | scripts/release.mjs:118-196 | after one write the remaining writes give the same result as the whole run from the old files; git and the exit code are unchanged |
| ReleaseCommands.Workspace.AlignVersions | scripts/release.mjs:247-258 | the files are those the ten writes leave, stopping at the first that throws; git and the exit code are unchanged |
| ReleaseCommands.Workspace.Fix | scripts/release.mjs:374-380 | the files are those the fix phase leaves, keeping every write made before a throw |
| ReleaseCommands.Workspace.Validate | scripts/release.mjs:382-387 | the new state and the result are those `ValidateSpec` gives |
| ReleaseCommands.Workspace.DoCheck | scripts/release.mjs:368-395 | the new state is the one `CheckSpec` gives |
| ReleaseCommands.Workspace.DoPrepare | scripts/release.mjs:397-407 | the new state is the one `PrepareSpec` gives |
| ReleaseCommands.Workspace.EnsureTagAbsent | scripts/release.mjs:409-419 | `rev-parse` is logged, and only its success means the tag exists and aborts; the files are unchanged |
| ReleaseCommands.Workspace.DoCut | scripts/release.mjs:421-453 | the new state is the one `CutSpec` gives |
| ReleaseCommandFacts.PublishLog | scripts/release.mjs:440-447 | publishing logs a prefix of its commands in order, and all of them when it succeeds, which creates the tag |
| ReleaseCommandFacts.CutGitLog | scripts/release.mjs:429-447 | the git log grows by a prefix of the plan, and by the whole plan exactly when a tag was created |
| ReleaseCommandFacts.StagedPathsCommitted | scripts/release.mjs:432-440 | committing after every changed path was staged records the working content of all of them |
| ReleaseCommandFacts.PublishCommits | scripts/release.mjs:440-441 | a successful publish commits what was staged and adds exactly the release tag |
| ReleaseCommandFacts.CutCommitsReleaseFiles | scripts/release.mjs:421-453 | a successful cut commits the working content of every staged release file and creates a tag that did not exist before |
| ReleaseCommandFacts.ExistingTagStopsCut | scripts/release.mjs:409-419 | when `rev-parse` finds the tag, the cut stops before staging anything |
| ReleaseCommandFacts.PublishKeepsExistingTag | scripts/release.mjs:440-441 | publishing over a tag that already exists fails at `git tag` and leaves the tags as they were |
| ReleaseCommandFacts.ExistingTagNeverMoved | scripts/release.mjs:409-441 | even when `rev-parse` fails, an existing tag makes the cut fail and is left as it was |
| ReleaseCommandFacts.UnchangedTreeStopsCut | scripts/release.mjs:435-438 | with nothing staged and every release file committed as it is, the cut stops at the staged-diff guard and commits nothing |
| ReleaseCommandFacts.CutLogFollowsOrder | scripts/release.mjs:421-447 | git is touched only after the version is valid and `prepare` succeeded with exit code 0; then the log grows by a prefix of the plan |
| ReleaseCommandFacts.CutGitWithoutPush | scripts/release.mjs:445-452 | without `--push` the git part of a cut never pushes |
| ReleaseCommandFacts.PushOnlyWhenRequested | scripts/release.mjs:421-453 | without `--push` a cut never pushes |
| ReleaseCommandFacts.FixedFiles | scripts/release.mjs:374-380 | the fix phase leaves the updater config and the workflow as the repairs make them, and the aligned config keeps every field but `version` |
| ReleaseCommandFacts.FixPassesConfigChecks | scripts/release.mjs:377 | after the fix phase on a repairable updater config both config checks pass |
| ReleaseCommandFacts.FixPassesWorkflowChecks | scripts/release.mjs:378 | after the fix phase on a repairable workflow all four workflow checks pass |
| ReleaseCommandFacts.FixLeavesNoStructuralIssues | scripts/release.mjs:368-387 | `check --fix` on a repairable tree reports no structural issue |
| ReleaseCommandFacts.FixedTreeIsAligned | scripts/release.mjs:374-380 | when the fix phase finishes on a tree whose JSON documents are objects and whose lock records sit on one line, every version `currentVersions` reads is the canonical one |
| ReleaseCommandFacts.RepairsKeepVersions | scripts/release.mjs:198-240 | two trees that differ only in the updater config (with the same version) and the workflow read the same versions |
| ReleaseCommandFacts.CheckFixReportsOnlyStructuralIssues | scripts/release.mjs:368-387 | `check --fix --version v` with a matching tag or none, when it succeeds, reports exactly the config and workflow findings of the fixed tree: no version, mismatch or tag issue |
| ReleaseCommandFacts.FixedCoreManifest | scripts/release.mjs:374-380 | the fix phase leaves the core manifest as aligning left it |
| ReleaseCommandFacts.PreparedTree | scripts/release.mjs:397-407 | a successful `prepare` was given a valid version, its files are those of the fix phase, the core manifest holds the version and every version can be read |
| ReleaseCommandFacts.CutAfterPrepareFails | scripts/release.mjs:421-424 | a cut after a successful `prepare` of the same version always throws at the core manifest, and git is never touched |
| SymbolNormalizer.CanonicalShape | src-core/src/market_data/symbol_normalizer.rs:11 | the trimmed, upper-cased symbol has no surrounding whitespace and no lower-case letter |
| SymbolNormalizer.CanonicalOfCanonical | src-core/src/market_data/symbol_normalizer.rs:11 | trimming and upper-casing a trimmed upper-case text changes nothing |
| SymbolNormalizer.LeadingZeroCount | src-core/src/market_data/symbol_normalizer.rs:85 | counts exactly the leading '0' characters: all before it are '0', the next is not |
| SymbolNormalizer.StrippedValue | src-core/src/market_data/symbol_normalizer.rs:85-90 | parsing the code after stripping its leading zeros (0 when nothing is left) gives the decimal value of the whole code |
| SymbolNormalizer.NormalizeHkCode | src-core/src/market_data/symbol_normalizer.rs:80-97 | a code is accepted exactly when it has one to five ASCII digits; the result keeps its value and has four digits below 10000 and five from there on |
| SymbolNormalizer.HkPaddedFacts | src-core/src/market_data/symbol_normalizer.rs:92-96 | zero-padding to width 4 or 5 yields digits with the same value and that width |
| SymbolNormalizer.HkCodeIdempotent | src-core/src/market_data/symbol_normalizer.rs:80-97 | re-normalising a normalised Hong Kong code gives the same code |
| SymbolNormalizer.MarketSymbolShape | src-core/src/market_data/symbol_normalizer.rs:24-47 | every recognised suffix but US yields digits, a dot and the canonical market (SS becomes SH), and that result is a fixed point of the suffix rules |
| SymbolNormalizer.InferDataSourceExact | src-core/src/market_data/symbol_normalizer.rs:62-78 | the east-money source is inferred exactly for six digits with SH, SS or SZ, the fund source exactly for six digits with FUND (both directions) |
| SymbolNormalizer.FundHintOnlyForBareCodes | src-core/src/market_data/symbol_normalizer.rs:52-57 | the fund hint changes the result exactly when the cleaned symbol is six digits without a dot, and then it appends ".FUND" |
| SymbolNormalizer.NormalizedIsCanonical | src-core/src/market_data/symbol_normalizer.rs:10-60 | the normalised symbol is trimmed and upper-case, and empty exactly when the input is blank |
| SymbolNormalizer.NormalizeOfCanonical | src-core/src/market_data/symbol_normalizer.rs:10-11 | normalisation depends only on the trimmed, upper-cased text |
| SymbolNormalizer.UsCodeNormalizesToItself | src-core/src/market_data/symbol_normalizer.rs:25-29 | the bare code produced from a ".US" symbol normalises to itself (unless the fund hint applies to it) |
| SymbolNormalizer.SuffixedNormalizesToItself | src-core/src/market_data/symbol_normalizer.rs:30-45 | a symbol produced by the SH/SZ/HK/FUND rules normalises to itself |
| SymbolNormalizer.FundNormalizesToItself | src-core/src/market_data/symbol_normalizer.rs:41-45 | a six-digit code with ".FUND" normalises to itself |
| SymbolNormalizer.NormalizeIdempotent | src-core/src/market_data/symbol_normalizer.rs:10-60 | normalising twice equals normalising once, except when the fund hint meets a bare six-digit first result |
| SymbolNormalizer.NormalizeKeepsDataSource | src-core/src/market_data/symbol_normalizer.rs:10-78 | a symbol with an inferred data source keeps that source after normalisation |
| SymbolNormalizer.NormalizedDataSource | src-core/src/market_data/symbol_normalizer.rs:73-76 | six digits with SH or SZ infer the east-money source, with FUND the fund source |
| SymbolNormalizer.NormalizeSuffixed | src-core/src/market_data/symbol_normalizer.rs:16-50 | a symbol reading code.market after cleaning takes the suffix rule's result, or stays as cleaned when no rule applies |
| SymbolNormalizer.UsSuffixExample | src-core/src/market_data/symbol_normalizer.rs:109-112 | "aapl.us" normalises to "AAPL" |
| SymbolNormalizer.ShanghaiSuffixExample | src-core/src/market_data/symbol_normalizer.rs:115-118 | "600519.SS" normalises to "600519.SH" |
| SymbolNormalizer.HkExample | src-core/src/market_data/symbol_normalizer.rs:36-40 | a Hong Kong symbol of value below 10000 normalises to the four-digit code of that value |
| SymbolNormalizer.HkTencentExample | src-core/src/market_data/symbol_normalizer.rs:121-130 | "00700.HK" normalises to "0700.HK" |
| SymbolNormalizer.HkHutchisonExample | src-core/src/market_data/symbol_normalizer.rs:121-130 | "00001.HK" normalises to "0001.HK" |
| SymbolNormalizer.HkAlibabaExample | src-core/src/market_data/symbol_normalizer.rs:121-130 | "09988.HK" normalises to "9988.HK" |
| SymbolNormalizer.FundHintExample | src-core/src/market_data/symbol_normalizer.rs:133-149 | "161039" stays as it is without the hint and becomes "161039.FUND" with it |
| SymbolNormalizer.InferWithMarket | src-core/src/market_data/symbol_normalizer.rs:68-77 | a six-digit code with a market word infers by the market alone: SH/SS/SZ east-money, FUND the fund source, otherwise none |
| SymbolNormalizer.InferShExample | src-core/src/market_data/symbol_normalizer.rs:152-165 | "600519.SH" infers the east-money source |
| SymbolNormalizer.InferSzExample | src-core/src/market_data/symbol_normalizer.rs:152-165 | "000001.SZ" infers the east-money source |
| SymbolNormalizer.InferSsExample | src-core/src/market_data/symbol_normalizer.rs:152-165 | "600519.SS" infers the east-money source |
| SymbolNormalizer.InferFundExample | src-core/src/market_data/symbol_normalizer.rs:168-173 | "161039.FUND" infers the fund source |
| SymbolNormalizer.InferBareExample | src-core/src/market_data/symbol_normalizer.rs:176-177 | "AAPL" infers no source |
| SymbolNormalizer.InferHkExample | src-core/src/market_data/symbol_normalizer.rs:176-178 | "0700.HK" infers no source |
| SymbolNormalizer.InferCashAndPairExamples | src-core/src/market_data/symbol_normalizer.rs:176-181 | "$CASH-CNY" and "CNYUSD=X" infer no source |
| SymbolNormalizer.DecimalValueInjective | src-core/src/market_data/symbol_normalizer.rs:92-96 | two digit strings of one width with equal values are equal, so the padded Hong Kong code is unique |
| MarketQuotes.DayOf | src-core/src/market_data/market_data_service.rs:103 | the UTC calendar day of an instant is the day whose 24-hour span contains it |
| MarketQuotes.AtHour | src-core/src/market_data/providers/tiantian_fund_provider.rs:121 | an hour of a day, read as a UTC instant, falls on that day |
| MarketQuotes.FallbackCurrency | src-core/src/market_data/providers/tiantian_fund_provider.rs:95-101 | the result is never blank, and a non-blank currency is kept as given |
| MarketQuotes.FallbackCurrencyIdempotent | src-core/src/market_data/providers/eastmoney_cn_provider.rs:86-92 | applying the fallback twice equals applying it once |
| MarketQuotes.SortByTimestamp | src-core/src/market_data/providers/tiantian_fund_provider.rs:602 | in place, the quotes end sorted by timestamp and are a permutation of the quotes before |
| MarketQuotes.InsertIntoPrefix | src-core/src/market_data/providers/eastmoney_cn_provider.rs:385 | moving one quote into a timestamp-sorted prefix extends the sorted prefix by one and permutes the array |
| MarketQuotes.SwapAdjacent | src-core/src/market_data/providers/eastmoney_cn_provider.rs:385 | two neighbouring quotes trade places, every other quote stays, and the contents are a permutation |
| MarketQuotes.Supported | src-core/src/market_data/providers/tiantian_fund_provider.rs:620-626 | holds exactly the requests whose symbol the provider supports |
| MarketQuotes.Unsupported | src-core/src/market_data/providers/tiantian_fund_provider.rs:620-626 | holds exactly the requests whose symbol the provider does not support |
| MarketQuotes.FetchFailures | src-core/src/market_data/providers/eastmoney_cn_provider.rs:423-441 | holds exactly the fetched requests that failed with a reported error (east-money does not report "no data") |
| MarketQuotes.SupportPartition | src-core/src/market_data/providers/eastmoney_cn_provider.rs:403-411 | the supported and the unsupported requests together are a permutation of all requests |
| MarketQuotes.FetchHistoryBulk | src-core/src/market_data/providers/tiantian_fund_provider.rs:606-659 | nothing for no requests or an empty window; otherwise the quotes of all supported requests in order, and as failures the unsupported requests then the reported fetch errors |
| MarketQuotes.BulkFailures | src-core/src/market_data/providers/eastmoney_cn_provider.rs:389-448 | a request is among the failures exactly when it is unsupported or its fetch failed with a reported error |
| TiantianFundProvider.ParseFundSymbol | src-core/src/market_data/providers/tiantian_fund_provider.rs:78-93 | an accepted symbol comes back trimmed and upper-cased with a six-digit code, and is either that bare code or the code with ".FUND" |
| TiantianFundProvider.FundSymbolAccepted | src-core/src/market_data/providers/tiantian_fund_provider.rs:78-93 | a symbol is accepted exactly when, trimmed and upper-cased, it is six digits with ".FUND" or six bare digits |
| TiantianFundProvider.RoutedSymbolsAreAccepted | src-core/src/market_data/providers/tiantian_fund_provider.rs:78-93 | every symbol the normaliser routes to the fund source is accepted by this provider |
| TiantianFundProvider.ParseFundSymbolIdempotent | src-core/src/market_data/providers/tiantian_fund_provider.rs:78-93 | the normalised symbol parses back to itself and the same code |
| TiantianFundProvider.ParseCodeWithMarket | src-core/src/market_data/providers/tiantian_fund_provider.rs:78-93 | six digits with a market word parse exactly when the word is FUND, giving the symbol and its code |
| TiantianFundProvider.SupportedSymbolExamples | src-core/src/market_data/providers/tiantian_fund_provider.rs:667-676 | "161039.FUND" and "161039" both parse to the code "161039" |
| TiantianFundProvider.ListedSymbolExamples | src-core/src/market_data/providers/tiantian_fund_provider.rs:678-683 | "600519.SH" and "0700.HK" are refused |
| TiantianFundProvider.UsSymbolExample | src-core/src/market_data/providers/tiantian_fund_provider.rs:678-683 | "AAPL.US" is refused |
| TiantianFundProvider.ParseDecimal | src-core/src/market_data/providers/tiantian_fund_provider.rs:103-109 | blank text and "--" give no value; any value given is the parse of the trimmed text |
| TiantianFundProvider.ParseDecimalIgnoresPadding | src-core/src/market_data/providers/tiantian_fund_provider.rs:103-109 | surrounding whitespace never changes the parsed value |
| TiantianFundProvider.ParseJsonpPayload | src-core/src/market_data/providers/tiantian_fund_provider.rs:129-136 | no '(' or no ')' gives nothing; a payload is always trimmed |
| TiantianFundProvider.JsonpRoundTrip | src-core/src/market_data/providers/tiantian_fund_provider.rs:129-136 | wrapping a body as callback(body) followed by a tail without ')' reads back the trimmed body, whatever brackets the body holds |
| TiantianFundProvider.JsonpCloseBeforeOpen | src-core/src/market_data/providers/tiantian_fund_provider.rs:132-134 | when the last ')' comes before the first '(' there is no payload |
| TiantianFundProvider.ParseFundNameFromProfileJs | src-core/src/market_data/providers/tiantian_fund_provider.rs:213-224 | a name found is non-empty, trimmed and free of '"', and the script holds the marker |
| TiantianFundProvider.ProfileNameRoundTrip | src-core/src/market_data/providers/tiantian_fund_provider.rs:213-224 | marker, a quote-free name and a closing quote read back as the trimmed name, or nothing when it is blank |
| TiantianFundProvider.ProfileNameExample | src-core/src/market_data/providers/tiantian_fund_provider.rs:708-713 | the profile script of fund 000614 gives the name 华安德国(DAX)联接(QDII)A |
| TiantianFundProvider.QuoteFromNav | src-core/src/market_data/providers/tiantian_fund_provider.rs:138-163 | open is the given open or the NAV; high and low are the larger and smaller of open and NAV so low <= open, close <= high; close and adjusted close are the NAV, volume 0, source Tiantian, id the day then "_" then the symbol |
| TiantianFundProvider.NavOnlyQuoteIsFlat | src-core/src/market_data/providers/tiantian_fund_provider.rs:145-147 | without an opening value every price of the quote equals the NAV |
| TiantianFundProvider.ParseLatestTimestamp | src-core/src/market_data/providers/tiantian_fund_provider.rs:111-127 | the estimate time with seconds, else without seconds, else midnight UTC of the NAV date, else the clock reading |
| TiantianFundProvider.ParseLatestQuoteFields | src-core/src/market_data/providers/tiantian_fund_provider.rs:165-188 | blank JSON is no data, undecodable JSON a parsing error; a result belongs to the requested fund, its close is the estimate when it parses and the NAV otherwise, and its open is the NAV |
| TiantianFundProvider.LatestFieldsPresence | src-core/src/market_data/providers/tiantian_fund_provider.rs:174-183 | a decoded record yields fields exactly when it is the requested fund and its estimate or its NAV parses |
| TiantianFundProvider.EmptyLatestJsonExample | src-core/src/market_data/providers/tiantian_fund_provider.rs:685-689 | empty JSON for fund 164906 is no data |
| TiantianFundProvider.LatestFieldsExample | src-core/src/market_data/providers/tiantian_fund_provider.rs:691-706 | the 000083 record gives close 5.1266 and open 5.1210, and asked for fund 006105 it is no data |
| TiantianFundProvider.ParseFundNameFields | src-core/src/market_data/providers/tiantian_fund_provider.rs:190-211 | blank JSON is no data, undecodable JSON a parsing error; a name returned is the trimmed, non-empty name of the requested fund's record |
| TiantianFundProvider.ItemQuote | src-core/src/market_data/providers/tiantian_fund_provider.rs:562-582 | a history row yields a quote exactly when its date and NAV parse; the quote has a consistent range, the request's symbol and currency, and falls on the row's day |
| TiantianFundProvider.PageQuotesWellFormed | src-core/src/market_data/providers/tiantian_fund_provider.rs:562-582 | a page gives at most one quote per row, each belonging to the request with a consistent range |
| TiantianFundProvider.HistoryReadsAtMostMaxPages | src-core/src/market_data/providers/tiantian_fund_provider.rs:513 | pages after the sixtieth are never read: endpoints agreeing on pages 1 to 60 give the same history |
| TiantianFundProvider.HistoryWellFormed | src-core/src/market_data/providers/tiantian_fund_provider.rs:510-596 | every quote of a successful history belongs to the request and has a consistent range |
| TiantianFundProvider.GetHistoricalQuotes | src-core/src/market_data/providers/tiantian_fund_provider.rs:489-604 | an unsupported symbol is a provider error, an empty window no quotes; otherwise a page error is returned as is, no quotes is NoData, and the quotes are returned sorted by time as a permutation of those collected |
| TiantianFundProvider.CollectHistory | src-core/src/market_data/providers/tiantian_fund_provider.rs:510-596 | the page loop returns exactly the paged history from page 1: stopping at an empty, short or final page, at a page error, or after page 60 |
| TiantianFundProvider.CollectPage | src-core/src/market_data/providers/tiantian_fund_provider.rs:562-582 | the row loop keeps exactly the quotes of the rows whose date and NAV parse, in row order |
| TiantianFundProvider.GetHistoricalQuotesBulk | src-core/src/market_data/providers/tiantian_fund_provider.rs:606-659 | nothing for no requests or an empty window; otherwise a request fails exactly when its symbol is refused or its fetch errs (NoData included), and the quotes are those of the accepted requests in order |
| EastmoneyCnProvider.ParseCnSymbol | src-core/src/market_data/providers/eastmoney_cn_provider.rs:69-84 | an accepted symbol comes back trimmed and upper-cased, with an eight-character id: market digit 0 or 1, a dot, then six digits |
| EastmoneyCnProvider.SecidInverse | src-core/src/market_data/providers/eastmoney_cn_provider.rs:77-83 | the id determines the symbol: its code with SH for "1" and SZ for "0" rebuilds the normalised symbol |
| EastmoneyCnProvider.CnSymbolAccepted | src-core/src/market_data/providers/eastmoney_cn_provider.rs:69-84 | a symbol is accepted exactly when, trimmed and upper-cased, it is six digits with ".SH" or ".SZ" |
| EastmoneyCnProvider.AcceptedSymbolsAreRouted | src-core/src/market_data/providers/eastmoney_cn_provider.rs:69-84 | every accepted symbol is one the normaliser routes to the EastMoney source |
| EastmoneyCnProvider.ParseCodeWithMarket | src-core/src/market_data/providers/eastmoney_cn_provider.rs:77-83 | six digits with SH give "1.<code>", with SZ "0.<code>"; every other market word (SS, FUND, US …) is refused |
| EastmoneyCnProvider.ParseDependsOnCanonical | src-core/src/market_data/providers/eastmoney_cn_provider.rs:70 | only the trimmed, upper-cased form of the symbol matters |
| EastmoneyCnProvider.NormalizedRoutedSymbolsAreAccepted | src-core/src/market_data/providers/eastmoney_cn_provider.rs:69-84 | a symbol routed to EastMoney is accepted once normalised, although an SS symbol is refused before normalisation |
| EastmoneyCnProvider.ShanghaiSymbolExample | src-core/src/market_data/providers/eastmoney_cn_provider.rs:535-538 | "600519.SH" has id "1.600519" |
| EastmoneyCnProvider.ShenzhenSymbolExample | src-core/src/market_data/providers/eastmoney_cn_provider.rs:540-542 | "000001.sz" has id "0.000001" |
| EastmoneyCnProvider.FundSymbolExample | src-core/src/market_data/providers/eastmoney_cn_provider.rs:549 | "161039.FUND" is refused |
| EastmoneyCnProvider.UsSymbolExample | src-core/src/market_data/providers/eastmoney_cn_provider.rs:547 | "AAPL.US" is refused |
| EastmoneyCnProvider.HkSymbolExample | src-core/src/market_data/providers/eastmoney_cn_provider.rs:548 | "700.HK" is refused |
| EastmoneyCnProvider.InferAssetSubClass | src-core/src/market_data/providers/eastmoney_cn_provider.rs:94-104 | the result is ETF or Stock; a symbol without a dot is Stock; ETF exactly when there is a dot and the code before it starts with 5, 15 or 16 |
| EastmoneyCnProvider.SubClassIgnoresMarket | src-core/src/market_data/providers/eastmoney_cn_provider.rs:94-104 | the sub-class depends on the code alone, never on the market suffix |
| EastmoneyCnProvider.SubClassExamples | src-core/src/market_data/providers/eastmoney_cn_provider.rs:94-104 | "510300.SH" and "159915.SZ" are ETFs |
| EastmoneyCnProvider.StockSubClassExample | src-core/src/market_data/providers/eastmoney_cn_provider.rs:94-104 | "600519.SH" is a stock |
| EastmoneyCnProvider.ParseTimestamp | src-core/src/market_data/providers/eastmoney_cn_provider.rs:114-128 | a reading above 10^12 is taken as milliseconds and one up to it as seconds; a missing or non-positive reading, or milliseconds past the last instant the date library can represent, gives the clock; any other result is a positive instant within that range |
| EastmoneyCnProvider.SecondsAndMillisAgree | src-core/src/market_data/providers/eastmoney_cn_provider.rs:114-128 | an instant after 2001-09-09 read in seconds and read in milliseconds gives the same time |
| EastmoneyCnProvider.ParseHistoryLine | src-core/src/market_data/providers/eastmoney_cn_provider.rs:130-158 | a row is a quote exactly when it has six fields and its date and four prices parse; fields are date, open, close, high, low, volume in that order, an unreadable volume is 0, adjusted close is close, the time is midnight of the date |
| EastmoneyCnProvider.HistoryLineOfFields | src-core/src/market_data/providers/eastmoney_cn_provider.rs:130-158 | comma-joined fields read back field by field, and fewer than six fields are never a quote |
| EastmoneyCnProvider.KlineQuotesBelongToRequest | src-core/src/market_data/providers/eastmoney_cn_provider.rs:371-379 | the kept rows give at most one quote per row, each with the request's symbol, currency and the EastMoney source |
| EastmoneyCnProvider.ParseKlines | src-core/src/market_data/providers/eastmoney_cn_provider.rs:371-379 | the loop over the k-line rows keeps, in row order, exactly the quotes of the rows that parse |
| EastmoneyCnProvider.GetHistoricalQuotes | src-core/src/market_data/providers/eastmoney_cn_provider.rs:315-387 | an unsupported symbol is a provider error, an empty window no quotes; a transport error is returned, missing data or no parseable row is NoData, otherwise the parsed rows sorted by time as a permutation |
| EastmoneyCnProvider.GetHistoricalQuotesBulk | src-core/src/market_data/providers/eastmoney_cn_provider.rs:389-448 | nothing for no requests or an empty window; otherwise a request fails exactly when its symbol is refused or its fetch errs with anything but NoData, and the quotes are those of the accepted requests in order |
| MarketDataService.ByDate | src-core/src/market_data/market_data_service.rs:529-535 | the day index files every quote under its own UTC day and its own symbol |
| MarketDataService.ByDateKeepsLastQuote | src-core/src/market_data/market_data_service.rs:529-535 | the index holds, for each day and symbol, the last such quote of the input, and nothing when there is none |
| MarketDataService.LatestUpTo | src-core/src/market_data/market_data_service.rs:539-558 | a quote found in a day window belongs to the symbol asked for |
| MarketDataService.LatestUpToIsLatest | src-core/src/market_data/market_data_service.rs:539-558 | the quote of the latest day in the window that has one, and nothing only when no day in the window has one |
| MarketDataService.LatestExtendLow | src-core/src/market_data/market_data_service.rs:541-557 | scanning one more day back only matters when nothing was found so far |
| MarketDataService.LatestWiden | src-core/src/market_data/market_data_service.rs:550-552 | once a quote is found, scanning further back changes nothing |
| MarketDataService.LastKnown | src-core/src/market_data/market_data_service.rs:538-567 | the last known quote of a symbol, when there is one, is that symbol's |
| MarketDataService.DayQuotes | src-core/src/market_data/market_data_service.rs:569-581 | one day's output: at most one quote per required symbol, each stamped 12:00 on that day |
| MarketDataService.DayQuotesMembers | src-core/src/market_data/market_data_service.rs:569-581 | one day's output is exactly what is emitted for the required symbols: every quote comes from one of them, and every symbol with a known quote contributes it |
| MarketDataService.DayQuotesDistinct | src-core/src/market_data/market_data_service.rs:569-581 | on one day no symbol is emitted twice and every emitted quote is a required symbol's |
| MarketDataService.FilledShape | src-core/src/market_data/market_data_service.rs:560-582 | every filled quote is a required symbol's and is stamped 12:00 on one of the days |
| MarketDataService.LastKnownIsLatest | src-core/src/market_data/market_data_service.rs:538-567 | over consecutive days, the quote known after k days is the latest one on or before day start + k - 1, looking back at most 3650 days |
| MarketDataService.FilledIsLatestOnOrBefore | src-core/src/market_data/market_data_service.rs:539-581 | the quote filled for a symbol on a day is its latest quote on or before that day, within 3650 days before the start, restamped at noon; otherwise none |
| MarketDataService.FillMissingQuotes | src-core/src/market_data/market_data_service.rs:518-585 | no required symbols give no quotes; otherwise the output is the day-by-day fill of the indexed quotes |
| MarketDataService.FilledWithoutSymbols | src-core/src/market_data/market_data_service.rs:525-527 | with no required symbol nothing is ever filled |
| MarketDataService.IndexByDate | src-core/src/market_data/market_data_service.rs:529-535 | the loop builds exactly the day index of the quotes |
| MarketDataService.AbsorbDay | src-core/src/market_data/market_data_service.rs:542-548 | one day's quotes: a required symbol takes that day's quote (during the backward scan only if not yet known), all else is kept |
| MarketDataService.InitialLookback | src-core/src/market_data/market_data_service.rs:537-558 | the backward scan knows exactly the required symbols with a quote in the 3650 days before the start, each with its latest one there |
| MarketDataService.ScanDay | src-core/src/market_data/market_data_service.rs:541-553 | one step of the backward scan extends the scanned window by one day |
| MarketDataService.AllKnownStaysKnown | src-core/src/market_data/market_data_service.rs:550-552 | stopping early once every required symbol is known gives the same result as scanning all 3650 days |
| MarketDataService.TrackDay | src-core/src/market_data/market_data_service.rs:561-567 | after a day's quotes are taken in, the known quotes are exactly each required symbol's last known quote up to that day |
| MarketDataService.FillDays | src-core/src/market_data/market_data_service.rs:560-582 | the day loop emits exactly the day-by-day fill |
| MarketDataService.EmitDay | src-core/src/market_data/market_data_service.rs:569-581 | the inner loop emits each known required symbol's quote restamped at noon on the day |
| MarketDataService.SyncStartDay | src-core/src/market_data/market_data_service.rs:1386-1399 | the start day is never after the end day; with refetch-all or no stored quote it is the end day less the default history; otherwise the day after the latest quote, or the end day when that quote is on or after it |
| MarketDataService.CalculateSyncPlan | src-core/src/market_data/market_data_service.rs:1335-1421 | one item per pair, in order, each starting 00:00 UTC on its start day; a repository error counts as no stored quotes |
| MarketDataService.SyncWindowFollowsLatest | src-core/src/market_data/market_data_service.rs:1386-1407 | with a stored quote the fetch leaves no gap after it, never starts after the end, and re-reads stored days only when the quote is on or after the end day |
| MarketDataService.ValidateQuoteData | src-core/src/market_data/market_data_service.rs:1423-1461 | an error exactly for a blank symbol, an unparseable date, a close at or below zero, or high below low (all three of open/high/low given); a warning exactly for open or close outside the range otherwise; the first failing check's message |
| MarketDataService.ConvertImportQuoteToQuote | src-core/src/market_data/market_data_service.rs:1463-1486 | fails exactly when the date does not parse; id "symbol_date", stamped 12:00 UTC, missing open, high and low taken from close, adjusted close is close, missing volume 0, source Manual |
| MarketDataService.ValidRowConvertsToConsistentQuote | src-core/src/market_data/market_data_service.rs:1423-1486 | a valid row with all or none of open, high and low converts to a quote with a positive close inside its range |
| MarketDataService.PartialRangeIsNotChecked | src-core/src/market_data/market_data_service.rs:1442-1458 | with only an open given the range is not checked: such a valid row can convert to a quote whose open is above its high |
| MarketDataService.ImportDecision | src-core/src/market_data/market_data_service.rs:384-402 | an existing quote is imported exactly when overwriting, and is otherwise skipped with a warning; a new quote is imported exactly when it validates |
| MarketDataService.ValidRows | src-core/src/market_data/market_data_service.rs:399-401 | holds exactly the rows whose status is Valid |
| MarketDataService.ClassifyFailsOnRepositoryError | src-core/src/market_data/market_data_service.rs:381 | the import fails exactly when some row's existence check fails |
| MarketDataService.ClassifyKeepsRows | src-core/src/market_data/market_data_service.rs:371-404 | on success the results keep the input's length and order, each row with its status |
| MarketDataService.ClassifyImportsValidRows | src-core/src/market_data/market_data_service.rs:371-404 | on success the rows to import are exactly the results with status Valid, in order |
| MarketDataService.ClassifyReportsFirstError | src-core/src/market_data/market_data_service.rs:381 | the first failing existence check is the error reported |
| MarketDataService.ImportQuotes | src-core/src/market_data/market_data_service.rs:367-404 | the loop gives exactly the classified results and rows to import, or the repository's error |
| MarketDataService.NormalizeMpfFundName | src-core/src/market_data/market_data_service.rs:1181-1211 | the loop with its previous-was-space flag computes exactly the fold of the per-character mapping |
| MarketDataService.NameFoldSingleSpaced | src-core/src/market_data/market_data_service.rs:1199-1207 | the loop never writes whitespace other than one space at a time |
| MarketDataService.NormalizedFundNameIsSingleSpaced | src-core/src/market_data/market_data_service.rs:1181-1211 | a normalised name has no leading, trailing or doubled whitespace and its only whitespace is the plain space |
| MarketDataService.NameFoldAppend | src-core/src/market_data/market_data_service.rs:1190-1208 | running the loop over two pieces is running it over the first and then the second |
| MarketDataService.NameFoldWord | src-core/src/market_data/market_data_service.rs:1191-1206 | a word's characters are written mapped, one by one |
| MarketDataService.NameFoldSpaces | src-core/src/market_data/market_data_service.rs:1199-1203 | after a space, a separator run writes nothing |
| MarketDataService.NameFoldSeparator | src-core/src/market_data/market_data_service.rs:1199-1203 | after a word, a separator run writes exactly one space |
| MarketDataService.NameFoldInterleave | src-core/src/market_data/market_data_service.rs:1190-1208 | over words and separators the loop writes the mapped words with one space between them |
| MarketDataService.NormalizedInterleave | src-core/src/market_data/market_data_service.rs:1181-1211 | a name made of words, separator runs and surrounding whitespace normalises to the mapped words joined by single spaces |
| MarketDataService.CoreIsTrimmed | src-core/src/market_data/market_data_service.rs:1182 | words joined by separators have no surrounding whitespace |
| MarketDataService.JoinedWordsAreTrimmed | src-core/src/market_data/market_data_service.rs:1210 | the mapped words joined by spaces have no surrounding whitespace |
| MarketDataService.VariantSpellingsAgree | src-core/src/market_data/market_data_service.rs:1181-1211 | the same words with other separator runs and other surrounding whitespace normalise to the same name |
| MarketDataService.ManulifeSpellingsAgree | src-core/src/market_data/market_data_service.rs:1508-1517 | "Manulife MPF Pacific Asia Equity Fund" and its double-spaced, hyphenated, padded spelling normalise equal |
| MarketDataService.HasPlaceholderName | src-core/src/market_data/market_data_service.rs:587-596 | a missing name is a placeholder; a name that is not one is non-blank and differs from the symbol up to ASCII case |
| MarketDataService.SymbolAsNameIsPlaceholder | src-core/src/market_data/market_data_service.rs:587-596 | a name that is the symbol in capitals, padded with whitespace, is a placeholder |
| MarketDataService.EastmoneySymbolsAreAShares | src-core/src/market_data/market_data_service.rs:598-601 | every symbol the EastMoney provider accepts ends, trimmed and upper-cased, in ".SH" or ".SZ" |
| MarketDataService.WithoutCommas | src-core/src/market_data/market_data_service.rs:1143 | the result contains no comma |
| MarketDataService.ParseDecimalFromText | src-core/src/market_data/market_data_service.rs:1142-1149 | blank text or "--" after trimming and removing commas gives nothing; any other text gives exactly the decimal parse of that text |
| MarketDataService.WithoutCommasOfJoin | src-core/src/market_data/market_data_service.rs:1143 | removing the commas from comma-joined groups runs the groups together |
| MarketDataService.ThousandsSeparatorsIgnored | src-core/src/market_data/market_data_service.rs:1142-1149 | digit groups joined by thousands separators parse as the digits run together |
| OpenExchangeRatesClient.FailureMessage | src-core/src/fx/open_exchange_rates_client.rs:51-57 | the error message is the body's description when it has one, else its message, provided the chosen text is not blank; an unparsed body, no chosen text or a blank one gives the status text |
| OpenExchangeRatesClient.StatusError | src-core/src/fx/open_exchange_rates_client.rs:50-64 | a failed status gives Unauthorized exactly when it is 401 or 403, otherwise a provider error, carrying the failure message |
| OpenExchangeRatesClient.RatesByCode | src-core/src/fx/open_exchange_rates_client.rs:69-78 | the table's keys are exactly the upper-cased currency codes of the response |
| OpenExchangeRatesClient.NormalizeRates | src-core/src/fx/open_exchange_rates_client.rs:69-80 | the normalising loop builds the upper-cased table with the trimmed, upper-cased base forced to 1 |
| OpenExchangeRatesClient.UpperOfUpper | src-core/src/fx/open_exchange_rates_client.rs:72 | upper-casing a code twice is the same as once |
| OpenExchangeRatesClient.NormalizedRatesShape | src-core/src/fx/open_exchange_rates_client.rs:69-80 | every key of the normalised table is upper-case, every currency of the response has an entry, and the base's rate is exactly 1 |
| OpenExchangeRatesClient.FetchLatestRates | src-core/src/fx/open_exchange_rates_client.rs:29-83 | a blank key is refused before any request; a transport failure is a network error; a failed status is Unauthorized or a provider error; an undecodable body is a parsing error; otherwise the normalised table |
| OpenExchangeRatesClient.RoundHalfEven | src-core/src/fx/open_exchange_rates_client.rs:118 | banker's rounding lands within half a unit of its argument |
| OpenExchangeRatesClient.RoundDpIsClose | src-core/src/fx/open_exchange_rates_client.rs:118 | rounding to dp places moves a value by at most half a unit in the last place |
| OpenExchangeRatesClient.RoundDpOfExact | src-core/src/fx/open_exchange_rates_client.rs:118 | a value that already has at most dp places is left unchanged by rounding |
| OpenExchangeRatesClient.ComputeCrossRate | src-core/src/fx/open_exchange_rates_client.rs:85-119 | the same normalised code gives 1; otherwise an error exactly when the source rate is missing or zero or the target rate is missing, each with its message; else target/source rounded to 12 places |
| OpenExchangeRatesClient.CrossRateIsClose | src-core/src/fx/open_exchange_rates_client.rs:85-119 | a computed cross rate is within half of 10^-12 of the exact quotient of the two rates |
| OpenExchangeRatesClient.CrossRateToFetchedBase | src-core/src/fx/open_exchange_rates_client.rs:80-118 | converting into the response's own base gives 1 over the currency's rate, since the base entry is forced to 1 |
| OpenExchangeRatesClient.HkdToCnyExample | src-core/src/fx/open_exchange_rates_client.rs:129-138 | with HKD at 7.8 and CNY at 7.2 per USD, HKD to CNY is 0.923077 to six places |
| OpenExchangeRatesClient.SameCurrencyExample | src-core/src/fx/open_exchange_rates_client.rs:140-145 | a currency converted into itself is 1 even with no rates at all |
| AutoExchange.NormalizeCurrency | src-core/src/fx/auto_exchange.rs:13-22 | a code is accepted exactly when the trimmed, normalised, upper-cased value is three ASCII letters, and then that value is the result |
| AutoExchange.NormalizedCurrencyIsUpperIso | src-core/src/fx/auto_exchange.rs:13-22 | an accepted code is three upper-case ASCII letters |
| AutoExchange.NormalizeCurrencyIdempotent | src-core/src/fx/auto_exchange.rs:13-22 | normalising an accepted code again gives it back unchanged |
| AutoExchange.CollectedMembers | src-core/src/fx/auto_exchange.rs:38-44 | a code is collected exactly when some listed currency normalises to it and it is not the base |
| AutoExchange.ManagedCurrencySetMembers | src-core/src/fx/auto_exchange.rs:24-47 | the managed set is empty when the base is invalid, and otherwise holds exactly the valid normalised listed codes other than the base |
| AutoExchange.ManagedCurrencySetShape | src-core/src/fx/auto_exchange.rs:24-47 | the base is never managed and every managed code is three upper-case ASCII letters |
| AutoExchange.BuildManagedCurrencySet | src-core/src/fx/auto_exchange.rs:24-47 | the loop over account then asset currencies builds exactly the managed set |
| AutoExchange.EnsureRegisteredPairs | src-core/src/fx/auto_exchange.rs:49-67 | every managed currency is registered against the base once, failures do not stop the loop, and the result is always Ok |
| AutoExchange.RateFor | src-core/src/fx/auto_exchange.rs:78-94 | a rate is produced exactly when the cross rate can be computed, and it records currency, base, that cross rate and the Open Exchange Rates source |
| AutoExchange.UpsertOpenExchangeRates | src-core/src/fx/auto_exchange.rs:69-110 | the count is the number of rates stored; every stored rate is the managed currency's cross rate and was persisted; every currency whose rate is computable and persists successfully is stored, and no currency is stored twice |
| AppNavigation.StripTrailingSlash | src/pages/layouts/navigation/app-navigation.tsx:82-86 | a value longer than one character that ends in a slash loses exactly that slash; any other value is kept |
| AppNavigation.NormalizePath | src/pages/layouts/navigation/app-navigation.tsx:73-87 | the result always starts with a slash: the empty path is the root, a relative path gets a leading slash, an absolute one loses one trailing slash |
| AppNavigation.NormalizePathNotIdempotent | src/pages/layouts/navigation/app-navigation.tsx:78-80 | a relative path keeps its trailing slash, so normalising "a/" twice differs from once |
| AppNavigation.RouteUnderMeaning | src/pages/layouts/navigation/app-navigation.tsx:89-97 | a non-empty path is under a route root exactly when, rooted, it is the root itself or starts with the root and a slash; a trailing slash makes no difference |
| AppNavigation.EmptyPathIsNoComponentRoute | src/pages/layouts/navigation/app-navigation.tsx:73-97 | the empty path is neither an insurance nor an MPF route |
| AppNavigation.RoutesAreDisjoint | src/pages/layouts/navigation/app-navigation.tsx:89-97 | no path is both an insurance route and an MPF route |
| AppNavigation.SiblingIsNoInsuranceRoute | src/pages/layouts/navigation/app-navigation.tsx:89-92 | "/insurance-x" is not an insurance route, while "insurance/" and "/insurance/policy/" are |
| AppNavigation.HiddenOnlyWhenSwitchedOff | src/pages/layouts/navigation/app-navigation.tsx:99-112 | a route is disabled exactly when settings exist and switch off explicitly the component (insurance or MPF) the route belongs to |
| AppNavigation.FilterEnabled | src/pages/layouts/navigation/app-navigation.tsx:136-140 | filtering never lengthens the list of entries |
| AppNavigation.FilterEnabledMembers | src/pages/layouts/navigation/app-navigation.tsx:136-140 | an entry is kept exactly when it was listed and its route is enabled |
| AppNavigation.FilterEnabledAppend | src/pages/layouts/navigation/app-navigation.tsx:136-140 | filtering keeps order: the filter of a concatenation is the concatenation of the filters |
| AppNavigation.FilterAllEnabled | src/pages/layouts/navigation/app-navigation.tsx:136-140 | when every listed route is enabled, nothing is dropped |
| AppNavigation.FilterDropsOne | src/pages/layouts/navigation/app-navigation.tsx:136-140 | when only one entry is disabled, filtering removes exactly that entry |
| AppNavigation.UseNavigation | src/pages/layouts/navigation/app-navigation.tsx:114-150 | the secondary entries are the static ones unfiltered, the add-ons are as registered, and every primary entry is a static one |
| AppNavigation.StaticRoutes | src/pages/layouts/navigation/app-navigation.tsx:89-112 | of the static primary entries only Insurance answers to the insurance flag and only MPF to the MPF flag |
| AppNavigation.DefaultNavigationShowsAll | src/pages/layouts/navigation/app-navigation.tsx:99-147 | with no settings, or with neither flag false, every static primary entry is shown in order |
| AppNavigation.HidingInsuranceDropsItsEntry | src/pages/layouts/navigation/app-navigation.tsx:99-147 | switching insurance off while MPF stays on removes exactly the Insurance entry |
| AppNavigation.IsPathActive | src/pages/layouts/navigation/app-navigation.tsx:152-173 | an empty href is never active; the root href is active only at the root; any other href is active at itself and below it, after one trailing slash is dropped on each side |
| AppNavigation.PathActiveAtItself | src/pages/layouts/navigation/app-navigation.tsx:152-173 | an absolute href is active at its own path |
| AppNavigation.PathActiveBelow | src/pages/layouts/navigation/app-navigation.tsx:165-172 | a non-root href is active at every path below it, with or without a trailing slash |
| AppNavigation.RelativePathNeverActive | src/pages/layouts/navigation/app-navigation.tsx:157-172 | a relative path is never active, because only the href gets a leading slash |
| AppNavigation.PathActiveExamples | src/pages/layouts/navigation/app-navigation.tsx:152-173 | the root href is active at "/" but not at "/dashboard"; "/insurance" is not active at "/insurance-x"; "insurance" is active at "/insurance/" |
| PanoramaAssetAttributes.ParseAttributes | src/lib/panorama-asset-attributes.ts:16-38 | a missing or empty text gives the empty object; otherwise the parsed object's fields, or the empty object when the text does not parse or is not a plain object |
| PanoramaAssetAttributes.GetAssetOwner | src/lib/panorama-asset-attributes.ts:74-78 | the owner is reported exactly when it is a string that is not blank after trimming, and then it is the trimmed string; an owner that is neither a string nor null throws |
| PanoramaAssetAttributes.OwnerIsTrimmedAndNonEmpty | src/lib/panorama-asset-attributes.ts:74-78 | a reported owner is never blank and has no surrounding whitespace |
| PanoramaAssetAttributes.NormalizedLiteral | src/lib/panorama-asset-attributes.ts:12-14 | the normalised text of a trimmed value is its lower-case form |
| PanoramaAssetAttributes.MpfAssetWithCashFlowsExample | src/lib/panorama-asset-attributes.test.ts:18-30 | an MPF-class asset with a trustee and cash-flow fields is an MPF asset and not insurance |
| PanoramaAssetAttributes.InsuranceAssetWithProviderExample | src/lib/panorama-asset-attributes.test.ts:32-44 | an Insurance-class asset with a provider is insurance and not MPF |
| PanoramaAssetAttributes.CashFlowOnlyAssetIsUnclassified | src/lib/panorama-asset-attributes.ts:40-72 | an asset with no class texts and only cash-flow attributes is neither insurance nor MPF |
| PanoramaAssetAttributes.ClassifiedByTextsAndFourFields | src/lib/panorama-asset-attributes.ts:40-72 | two assets that agree on the three normalised class texts and on policy_type, guaranteed_value, trustee and fund_allocation are classified alike |
| PanoramaAssetAttributes.OtherAttributesNeverMatter | src/lib/panorama-asset-attributes.ts:40-72 | setting any other attribute, a cash-flow figure included, never changes whether an asset is insurance or MPF |
| PanoramaAssetAttributes.IntendedWidensOnlyByCashFlows | src/lib/panorama-asset-attributes.test.ts:46-56 | the corrected insurance test keeps every asset the code calls insurance, adds only non-MPF assets with cash-flow figures, and keeps out MPF assets the code keeps out |
| PanoramaAssetAttributes.IntendedMeetsClassificationTests | src/lib/panorama-asset-attributes.test.ts:18-56 | the corrected insurance test meets all three classification tests, the cash-flow-only one included |
| AssetEditorForms.ParseOptionalNumber | src/pages/mpf/components/mpf-asset-editor-sheet.tsx:88-101 | no number for a missing or blank text, for one that does not read as a finite number, or for a negative value; otherwise the number the trimmed text reads as (the insurance sheet's copy at src/pages/insurance/components/insurance-policy-editor-sheet.tsx:74-87 is identical) |
| AssetEditorForms.ParseOptionalNumberIgnoresPadding | src/pages/mpf/components/mpf-asset-editor-sheet.tsx:92 | whitespace around the text never changes the number it reads as |
| AssetEditorForms.TrimmedText | src/pages/mpf/components/mpf-asset-editor-sheet.tsx:246-248 | a text box's value is kept exactly when it is not blank after trimming, and then it is non-empty and trimmed |
| AssetEditorForms.PutLookup | src/pages/mpf/components/mpf-asset-editor-sheet.tsx:251-255 | after one assignment or deletion, the edited key reads as that edit left it and every other key reads as before |
| AssetEditorForms.ApplyEditsLookup | src/pages/mpf/components/mpf-asset-editor-sheet.tsx:242-281 | after a run of edits on a copy of the attributes, a key reads as its last edit left it, and a key no edit names reads as before |
| AssetEditorForms.LastEditOfCons | src/pages/mpf/components/mpf-asset-editor-sheet.tsx:242-281 | the last edit of a key in a list is the last in its tail, or else the head's when the head names the key |
| AssetEditorForms.EditedKeyLookup | src/pages/mpf/components/mpf-asset-editor-sheet.tsx:242-281 | with each key edited once, every edited key reads as its edit left it |
| AssetEditorForms.UneditedKeyLookup | src/pages/mpf/components/mpf-asset-editor-sheet.tsx:242-244 | a key that no edit names keeps its stored value |
| AssetEditorForms.LastEditAt | src/pages/mpf/components/mpf-asset-editor-sheet.tsx:242-281 | an edit that no later edit overrides is the last edit of its key |
| AssetEditorForms.LastEditNone | src/pages/mpf/components/mpf-asset-editor-sheet.tsx:242-281 | a key that no edit names has no last edit |
| AssetEditorForms.ApplyEditsSnoc | src/pages/mpf/components/mpf-asset-editor-sheet.tsx:251-281 | the edits run in list order: one more edit is one more assignment or deletion on the attributes so far |
| AssetEditorForms.Submit | src/pages/mpf/components/mpf-asset-editor-sheet.tsx:283-330 | a blank symbol flags the symbol field and, failing that, a blank currency flags the currency field; a create request is sent exactly when creating with both set, as a manual asset with trimmed symbol, upper-cased currency, the name or else the symbol, and the sheet's class; an update exactly when editing an asset, keeping its symbol and its class and sub-class where set, and taking the name or else the stored name or else the symbol |
| AssetEditorForms.CreatedAssetIsWellFormed | src/pages/mpf/components/mpf-asset-editor-sheet.tsx:283-313 | a created asset always has a non-blank trimmed symbol and name and a non-empty upper-case currency |
| AssetEditorForms.BlankEditKeepsStoredName | src/pages/mpf/components/mpf-asset-editor-sheet.tsx:323 | an edit with a blank name box keeps a stored empty name: only a missing name falls back to the symbol |
| MpfAssetEditor.SubfundKeyMatches | src/pages/mpf/components/mpf-asset-editor-sheet.tsx:137-139 | two sub-fund names share a key exactly when they agree after trimming and lower-casing |
| MpfAssetEditor.CleanRow | src/pages/mpf/components/mpf-asset-editor-sheet.tsx:143-154 | a row is dropped exactly when its name is blank; otherwise the sub-fund has the trimmed name and the units only when they parse as a non-negative number |
| MpfAssetEditor.CleanSubfunds | src/pages/mpf/components/mpf-asset-editor-sheet.tsx:141-156 | cleaning never lengthens the rows, and every kept sub-fund has a trimmed non-empty name, no valuation fields, and non-negative units if any |
| MpfAssetEditor.CleanSubfundsAppend | src/pages/mpf/components/mpf-asset-editor-sheet.tsx:141-156 | cleaning keeps the order of the rows: it distributes over concatenation |
| MpfAssetEditor.CleanSubfundsMembers | src/pages/mpf/components/mpf-asset-editor-sheet.tsx:141-156 | a sub-fund is kept exactly when some row cleans to it |
| MpfAssetEditor.ExistingForNone | src/pages/mpf/components/mpf-asset-editor-sheet.tsx:224-229 | no stored sub-fund is found for a key exactly when none has that key |
| MpfAssetEditor.ExistingForIsLastMatch | src/pages/mpf/components/mpf-asset-editor-sheet.tsx:224-229 | the stored sub-fund found for a key has that key and is the last one with it, as a later map entry replaces an earlier one |
| MpfAssetEditor.MergeSubfund | src/pages/mpf/components/mpf-asset-editor-sheet.tsx:228-239 | a merged sub-fund keeps the cleaned name, code and units, and takes nav, market value and allocation from the stored sub-fund of the same key wherever that one has them |
| MpfAssetEditor.MergeSubfunds | src/pages/mpf/components/mpf-asset-editor-sheet.tsx:228-240 | merging keeps the number and order of the cleaned sub-funds, each merged on its own |
| MpfAssetEditor.UnmatchedSubfundIsUnchanged | src/pages/mpf/components/mpf-asset-editor-sheet.tsx:228-240 | a sub-fund whose name matches no stored sub-fund is written exactly as cleaned |
| MpfAssetEditor.MpfEditKeys | src/pages/mpf/components/mpf-asset-editor-sheet.tsx:251-281 | the rewrite edits owner, trustee, mpf_scheme, valuation_date, mpf_subfunds and fund_allocation, in that order |
| MpfAssetEditor.MpfAttributesByKey | src/pages/mpf/components/mpf-asset-editor-sheet.tsx:242-281 | owner, trustee, scheme and valuation date are set when given and deleted otherwise; the sub-funds are set exactly when some are left; fund_allocation is always deleted; every other key is kept |
| MpfAssetEditor.NextMpfAttributes | src/pages/mpf/components/mpf-asset-editor-sheet.tsx:242-281 | the assignments and deletions, one by one, produce exactly the edited attribute object |
| MpfAssetEditor.SubmitMpfAsset | src/pages/mpf/components/mpf-asset-editor-sheet.tsx:221-331 | submitting reads the stored sub-funds, cleans and merges the rows, rewrites the attributes and forms the MPF / MPF Fund request from them |
| MpfAssetEditor.SubmittedMpfAttributesDropAllocation | src/pages/mpf/components/mpf-asset-editor-sheet.tsx:281-330 | no submitted request carries fund_allocation, a created asset is MPF / MPF Fund, and a blank symbol or currency gives a field error |
| InsurancePolicyEditor.Nullish | src/pages/insurance/components/insurance-policy-editor-sheet.tsx:112-113 | a missing or null value gives the fallback, any other value is kept |
| InsurancePolicyEditor.ToDate | src/pages/insurance/components/insurance-policy-editor-sheet.tsx:56-65 | no date for a missing or empty text; otherwise whatever the date parser makes of it, no date when it is invalid |
| InsurancePolicyEditor.BuildDefaults | src/pages/insurance/components/insurance-policy-editor-sheet.tsx:89-126 | without an asset a blank form in HKD; otherwise the asset's symbol, currency (HKD by default) and name, the stored owner, the provider from insurance_provider when it is a string or else the trustee, the date from a stored string, and each cash-flow text non-blank only for a stored number |
| InsurancePolicyEditor.TrusteeStandsInForProvider | src/pages/insurance/components/insurance-policy-editor-sheet.tsx:104-113 | a policy with no insurance_provider but a trustee shows the trustee as provider |
| InsurancePolicyEditor.CashFlowDefaults | src/pages/insurance/components/insurance-policy-editor-sheet.tsx:117-124 | a stored number shows as its text, and anything else in a cash-flow field shows as blank |
| InsurancePolicyEditor.PolicyEditKeys | src/pages/insurance/components/insurance-policy-editor-sheet.tsx:203-231 | the rewrite edits owner, insurance_provider, valuation_date, total_paid_to_date and withdrawable_value, in that order |
| InsurancePolicyEditor.PolicyAttributesByKey | src/pages/insurance/components/insurance-policy-editor-sheet.tsx:192-231 | owner, provider and valuation date are set when given and deleted otherwise; the cash-flow figures are set when they parse as non-negative numbers and deleted otherwise; every other key is kept |
| InsurancePolicyEditor.NextPolicyAttributes | src/pages/insurance/components/insurance-policy-editor-sheet.tsx:192-231 | the assignments and deletions, one by one, produce exactly the edited attribute object |
| InsurancePolicyEditor.SubmitPolicy | src/pages/insurance/components/insurance-policy-editor-sheet.tsx:191-281 | submitting rewrites the stored attributes (none when creating) and forms the Insurance / Policy request from them |
| InsurancePolicyEditor.SubmittedPolicyClass | src/pages/insurance/components/insurance-policy-editor-sheet.tsx:233-280 | a created policy is a manual Insurance / Policy asset; an edited one keeps its class and sub-class, defaulting to Insurance / Policy; a blank symbol or currency sends no request |
| InsurancePolicyEditor.ResubmittedDefaultsKeepOwnerAndProvider | src/pages/insurance/components/insurance-policy-editor-sheet.tsx:89-231 | resubmitting the form as filled keeps a trimmed stored owner and provider, writing a trustee that stood in for the provider as insurance_provider |
| InsurancePolicyEditor.ResubmittedTotalPaid | src/pages/insurance/components/insurance-policy-editor-sheet.tsx:117-225 | resubmitting the form as filled keeps a stored non-negative total paid whose text reads back, and deletes a negative one |
| PortfolioJobs.NormalizeFilePath | src-server/src/api/shared.rs:23-25 | a path starting with file:// loses exactly that prefix; any other path is kept |
| PortfolioJobs.NormalizeFilePathOfUrl | src-server/src/api/shared.rs:23-25 | a file:// URL gives back the path it was made of, and only one scheme is removed |
| PortfolioJobs.IntoConfig | src-server/src/api/shared.rs:36-45 | account ids, symbols and the force flag are copied unchanged, and market data is refetched exactly when forced or asked for |
| PortfolioJobs.FxSymbolInjective | src-server/src/api/shared.rs:87 | of two currencies of the same length, the quote symbol determines both currencies |
| PortfolioJobs.AccountJobConfig | src-server/src/api/shared.rs:73-101 | a full recalculation without refetch; a deleted account recalculates all accounts and symbols; a created or updated account is recalculated alone, with its currency-to-base quote exactly when a base is set and differs from the account's currency |
| PortfolioJobs.AccountInBaseCurrencyNeedsNoQuote | src-server/src/api/shared.rs:84-90 | an account in the base currency, or any account when no base is set, needs no quote; a USD account under an HKD base needs USDHKD=X |
| PortfolioJobs.CollectedAccountsMembers | src-server/src/api/shared.rs:465-472 | exactly the non-empty account ids of the changes are collected |
| PortfolioJobs.CollectedSymbolsMembers | src-server/src/api/shared.rs:468-494 | a symbol is collected exactly when one change touches it, as its asset or as the quote from its account's currency into its own |
| PortfolioJobs.ChangeWithoutAccountIsSkipped | src-server/src/api/shared.rs:469-471 | a change with an empty account id contributes neither an account nor a symbol |
| PortfolioJobs.SetToSeq | src-server/src/api/shared.rs:500 | collecting a set gives each of its elements exactly once |
| PortfolioJobs.OptionalSeq | src-server/src/api/shared.rs:497-506 | an empty set becomes no list, any other set the list of its elements, each once |
| PortfolioJobs.ActivityJobConfig | src-server/src/api/shared.rs:460-512 | no job for an empty batch; otherwise a full recalculation with refetch, whose accounts and symbols are exactly those the changes touch, each listed once, or no list when none |
| PortfolioJobs.SelectProvider | src-server/src/api/shared.rs:228-274 | Open Exchange Rates is chosen exactly when it is selected after trimming and upper-casing, listed as enabled, and its stored key is not blank, and only then is the key carried; Yahoo otherwise |
| PortfolioJobs.YahooSelectionNeverUsesKey | src-server/src/api/shared.rs:228-233 | selecting Yahoo, or Open Exchange Rates with no provider settings, gives Yahoo without a key |
| PortfolioJobs.PrepareAutoExchangeManagement | src-server/src/api/shared.rs:166-282 | nothing when the settings cannot be read, automatic handling is off, or the trimmed upper-cased base is blank; otherwise that base, the managed currencies of the account and asset currencies, and the chosen provider and key |
| PortfolioJobs.WithTotalAccount | src-server/src/api/shared.rs:431-436 | the listed accounts, in order, followed by TOTAL exactly when it was not listed already |
| PortfolioJobs.WithTotalAccountOnce | src-server/src/api/shared.rs:431-436 | appending TOTAL twice changes nothing more, and the accounts stay distinct when they were |

## Left out

- Process, file-system, git and network execution are not modelled. Files are an abstract map, git is a state plus a log of structured commands, and HTTP responses are inputs. `execSync`, console output and retries are left out.
- `JSON.stringify` formatting is not modelled: JSON files are held as parsed documents, and requests carry the attribute object itself rather than its text.
- JavaScript replacement patterns (`$&`, `$1`, …) inside a version string are not modelled.
- `ReleaseAlign.AlignedLockRecords`: assumes each of the four records in the server and Tauri lock files holds a version without a line break (`LockRecordsOnOneLine`). The version pattern `[^"]+` can span lines, and such a value can contain another package's record head, which a write would then change. Cargo never writes such a lock file. `ReleaseAlign.AlignedVersions`, `ReleaseCommandFacts.FixedTreeIsAligned` and `ReleaseCommandFacts.CheckFixReportsOnlyStructuralIssues` inherit the assumption.
- `EastmoneyCnProvider.ParseTimestamp`: the last representable instant is taken as the end of 31 December 262142, the latest date of current versions of the Rust date library; that library's version is not part of this model.
- Case mapping and trimming are ASCII-only (plus the JavaScript whitespace set for `trim()`). Unicode case folding is not modelled, and Rust's Unicode `char::is_alphanumeric` is a parameter of the MPF fund-name normalisation.
- Floating point is not modelled. This covers `Decimal::from_f64_retain` (including the error for a non-finite rate), EastMoney's `to_price` and `to_volume`, and `Number()`. Decimals are exact `real`s, and `round_dp` is banker's rounding on them.
- The FX service (registering pairs, persisting rates) is passed in as functions. The model returns what was asked of it; it does not model storage.
- Concurrency and timing are not modelled: `tokio::spawn` in `enqueue_portfolio_job`, `join_all` batching, sleeps and the provider registry's lock.
- `Utc::now()` is a `now` parameter, and `DEFAULT_HISTORY_DAYS` is a parameter of the sync plan.
- Iteration order of `HashSet` and `HashMap` is not modelled:
  - a set is iterated in an arbitrary order;
  - `fill_missing_quotes` emits a day's quotes in the order of the required symbols;
  - the Open Exchange Rates response is a sequence, so with two codes that differ only in case the later entry wins.
- Repeated keys in a JSON object are not modelled. A parsed object is assumed to hold each key once, as the result of `JSON.parse` does.
- `MarketQuotes.SortByTimestamp`: states sorted and a permutation, but not the stability of Rust's `sort_by`.
- `MarketDataService.HasPlaceholderName`: its ensures does not state the comparison with the asset id, only the missing-name and symbol cases.
- `AutoExchange.EnsureRegisteredPairs` and `AutoExchange.UpsertOpenExchangeRates`: a logged failure is not modelled, only that the loop goes on.
- `InsurancePolicyEditor.TrusteeStandsInForProvider` and `InsurancePolicyEditor.CashFlowDefaults` follow from `BuildDefaults`'s contract alone. They document the behaviour rather than add proof.
- `InsurancePolicyEditor.BuildDefaults`: the owner (and the provider when it falls back to the trustee) is kept as the stored JSON value. `?? ""` passes any non-null value through, so these are not narrowed to strings.
- Quote import: the conversion and bulk upsert after the classification loop of `import_quotes_from_csv` go through the repository and are not modelled. Their inputs are covered by `ConvertImportQuoteToQuote`.
- Validation leaves one gap unchecked, and the model records it rather than closing it. A row with only some of open, high and low has no range check (`MarketDataService.PartialRangeIsNotChecked`).
- The error messages of the Open Exchange Rates client come from the response body. A description that is present but blank suppresses the message field and falls back to the status text; the model keeps that behaviour (`OpenExchangeRatesClient.FailureMessage`).
- The values of `DATA_SOURCE_OPEN_EXCHANGE_RATES`, `DATA_SOURCE_YAHOO` and `PORTFOLIO_TOTAL_ACCOUNT_ID` are defined outside the modelled files. They are taken as `"OPEN_EXCHANGE_RATES"`, `"YAHOO"` and `"TOTAL"`.
- Enqueuing and running a portfolio job are not modelled: the server-sent events and the valuation calls of `process_portfolio_job`. Only its TOTAL-account rule is.
- `get_latest_quote`, `get_asset_profile` and `search` of the two providers are not modelled, because they are HTTP-bound. Their parsing steps are modelled.
- The MPF editor's `buildDefaults` is not modelled. It only reads stored values back into the form through `normalizeMpfSubfunds` and `new Date`, and both are outside the model.
- `toIsoDate` and `toDate` turn a picked date into text and back; they are parameters. The valuation date arrives at submit as text.
- Icons, keywords and labels of the navigation entries, the React hooks and all rendering are not modelled. The add-on navigation entries are a parameter.

## Findings

| source | as written | input that shows it | evidently intended | confidence | as-written member | corrected member |
|---|---|---|---|---|---|---|
| src/lib/panorama-asset-attributes.ts:54 | `isInsuranceAsset` looks only at the class texts, `policy_type` and `guaranteed_value`, so an asset with only cash-flow figures is not insurance | an asset with no class, sub-class or type and attributes `{"total_paid_to_date": 5000, "withdrawable_value": 4200}`, the third case of src/lib/panorama-asset-attributes.test.ts:46-56, which expects `true` | a legacy asset that is not MPF but carries cash-flow figures counts as insurance, while MPF assets with cash-flow figures stay out | high for the mismatch with the test; not executed | PanoramaAssetAttributes.CashFlowOnlyAssetIsUnclassified | PanoramaAssetAttributes.IntendedMeetsClassificationTests |
