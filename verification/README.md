# Verified models of lopper's core algorithms

lopper looks at the dependencies of source repositories: it warns about lockfiles that drift from their manifests,
keeps a cache of published advisories, routes findings to code owners, determines which package versions a project
can resolve, caches analyses, and reports on portfolios of repositories. This project models the places where a fast,
streaming or in-place algorithm has to agree with a simple account of the same thing, and the two protocols that
share a directory between processes, and proves that they do. `dafny verify dfyconfig.toml` checks everything.

Code that changes state step by step is modelled by methods, loops and classes with the fields it updates; each is
proved against a function, and the lemmas say what that function means by a reference that does not follow the code:
a grammar, a tree, a segment-by-segment matcher, an interval, a partition, a set, or all interleavings of a protocol.

| modules | what they model |
|---|---|
| `GitPathspec`, `GitContext`, `DriftRules`, `FailFastSteps`, `FailFastScan`, `PreparedScan`, `DriftVerdict` | The lockfile-drift scanner. Git is an oracle: a question fails when git is down, or when a tracked path has an active filter or cannot be probed for one, and otherwise answers with the changed paths. `FailFastSteps` says what the batched fail mode comes to and proves it equal to the rule-by-rule replay but for failing probes, `FailFastScan` is the scanner that takes these steps, `PreparedScan` the two-pass warn mode equal to direct evaluation, and the two modes consistent with each other. `DriftVerdict` says what the rules conclude over files, manifest texts and changed paths, and that both modes report exactly this. |
| `AdvisoryPublication` | Publishing downloaded snapshots as a state machine of many processes, any of which may fail, roll back or crash at any step. Manifest writes are all or nothing; the digest is not assumed to be free of collisions in its first 24 digits. |
| `Codeowners`, `CodeownersText` | Translating CODEOWNERS patterns to regular expressions, with a semantics of the expressions and of the patterns, and a grammar that reads the expressions' text. |
| `OsvTokens`, `OsvTrees`, `OsvLoad`, `OsvComplete`, `OsvSchema` | Checking an OSV document while it streams by, what the checks mean for its tree, what loading an accepted document yields, and which trees the Go types take. |
| `MsBuild`, `MsBuildMeaning`, `NuGetVersions`, `NuGetCoverage`, `NuGetEvidence`, `NuGetSoundness` | Reading package items from MSBuild documents, what tags and attributes mean, the sets of candidate versions, and the proofs that these cover every evaluation of the document and hold nothing that no choice of the conditional parts leads to. |
| `SemVer`, `CargoRequirement`, `CargoSyntax`, `CargoText`, `CargoRoundTrip`, `CargoLists`, `CargoGrammar` | Cargo requirements: their text, their clauses, and the intervals of versions they stand for. |
| `BaselineEnvelope`, `BaselineText` | The byte scanner that tells typed from legacy baseline snapshots, against concrete JSON syntax. |
| `Codemod` | Applying line edits bottom up. |
| `MixDelimiters` | Matching delimiters and splitting top-level terms in Mix files, against a grammar of well-nested text. |
| `CachePayload`, `AnalysisCache`, `InputDigest` | The content-addressed analysis cache: payloads, lookups and stores of many processes, and the byte stream that is hashed. |
| `ChangedRoots` | Which analysis roots contain a changed file. |
| `WorkerPool` | The dashboard's workers over an unbuffered channel, in every schedule. |
| `RefAllocator` | Unique reference names in the CycloneDX report. |
| `Strings`, `Seqs`, `Results`, `Decimal`, `Float64` | The parts of Go's library the models lean on, and stock lemmas. |

Where a property one might expect is false of the code, the project shows the input and proves where it does hold:

- `FailFastScan.Scan`: a failing filter probe is reported before its turn (`ProbeFailureExample`). The outcome is that of
  `FailFastSteps.Batched`, and `ScanDiffersExactlyWhen` says when it is not the replay's: git fails on a batch whose
  replay ends otherwise. While git is down both fail, with texts that may name different paths.
- `OsvComplete`: the checks of a downloaded snapshot pass documents that do not load, or not all of whose entries do.
  `NoEntryIsLostExactlyWhen` gives the condition; the lemmas behind it show a mistyped field, a number without a float64
  in an untyped map, a value nested too deep, an empty list and an empty wrapper, a local list, and
  (`CaseVariantLosesTheEntry`) a field name that differs in letter case alone.
- `NuGetEvidence.BlankUpdateEscapes`: an update that states a blank version. That updates state values is sufficient for
  coverage; includes may leave them blank.
- `NuGetEvidence.OverrideHidesTheVersion`: a version together with a different override while central versions are off.
  NuGet ignores the override there and the code does not; otherwise the evidence is complete (`CompleteExactlyWhen`).
- `CargoRoundTrip.ClauseRoundTrip`: an `x` that stands alone between dots, in a pre-release or in build metadata, is
  taken for a wildcard.

Git, the file system, hashes, the decoding of JSON strings, the recognition of exact NuGet versions and the analyzer
are parameters. The file system does not change during a scan.

## Model

| member | source | states |
|---|---|---|
| GitPathspec.Batches | internal/app/lockfile_drift_git.go:311-328 | The path list is cut into contiguous nonempty batches, each within both limits or a single path, and no such cut has fewer batches |
| GitPathspec.GreedyIsMinimal | internal/app/lockfile_drift_git.go:311-328 | The greedy cut has at most as many batches as any admissible cut |
| GitPathspec.Merge | internal/app/lockfile_drift_git.go:287-303 | Merging keeps each path of the groups exactly once and adds none |
| GitPathspec.MergeSorted | internal/app/lockfile_drift_git.go:305-309 | The merged answer is strictly ascending with the same members |
| GitPathspec.FilesForPaths | internal/app/lockfile_drift_git.go:365-387 | One query per batch, merged and sorted, yields exactly the asked paths that a pathwise query hits |
| GitPathspec.BatchingIsInvisible | internal/app/lockfile_drift_git.go:258-268 | The batched answer is the sorted answer of one unlimited query |
| GitContext.Classify | internal/app/lockfile_drift_git.go:110-142 | Candidates are split into tracked and visible untracked paths, and active filters are probed on exactly the tracked ones |
| GitContext.TrackedChanges | internal/app/lockfile_drift_git.go:220-241 | Tracked changes come from the head diff, or from staged and unstaged diffs when there is no head |
| GitContext.CollectContext | internal/app/lockfile_drift_git.go:79-100 | Classification, filter probe and diffs together answer what a path-by-path query answers: an error if git is down, a path cannot be probed or is filtered, otherwise the changed paths among those asked |
| DriftRules.OnlyCandidatesMatter | internal/app/lockfile_drift_scanner.go:1198-1234 | A rule depends on git only through its candidate paths; with no candidates it does not look at git |
| DriftRules.ManifestChangedLocal | internal/app/lockfile_drift_scanner.go:1293-1317 | The manifest-change finding depends only on whether the listed manifests and lockfiles changed |
| FailFastSteps.SharedAnswerServes | internal/app/lockfile_drift_scanner.go:429-448 | One unfiltered shared git answer gives every covered snapshot the outcome of asking rule by rule |
| FailFastSteps.DownFailsFirst | internal/app/lockfile_drift_scanner.go:459-486 | While git is down a snapshot that asks anything fails with git failing on the candidates of one of its rules |
| FailFastSteps.NothingAsked | internal/app/lockfile_drift_scanner.go:375-415 | A git-free finding before which no rule asks git is the snapshot outcome |
| FailFastSteps.CandidatesCover | internal/app/lockfile_drift_scanner.go:375-415 | The candidates of the rules before the first git-free finding cover all the snapshot can ask |
| FailFastScan.CandidatePaths | internal/app/lockfile_drift_scanner.go:582-599 | The collected candidates are the sorted union of the candidates of the rules, or an error when one rule fails |
| FailFastScan.FirstWarning | internal/app/lockfile_drift_scanner.go:523-534 | Evaluating the rules in order stops at the first warning or error and reports its index |
| FailFastScan.SnapshotBatch.WouldOverflow | internal/app/lockfile_drift_scanner.go:227-243 | Refuses exactly the additions that would break the snapshot, path-count or byte limit of a batch that already holds a snapshot |
| FailFastScan.SnapshotBatch.Add | internal/app/lockfile_drift_scanner.go:245-258 | Appends the snapshot and its unseen candidates; a batch of two or more snapshots stays within all three limits |
| FailFastScan.SnapshotBatch.Take | internal/app/lockfile_drift_scanner.go:260-268 | Hands out the batch and leaves an empty one |
| FailFastScan.Scanner.RecordRuleByRule | internal/app/lockfile_drift_scanner.go:459-486 | Reports the first outcome of the rules when each asks git for its own candidates |
| FailFastScan.Scanner.FlushInOrder | internal/app/lockfile_drift_scanner.go:450-457 | The fallback reports the first rule-by-rule outcome of the snapshots in walk order |
| FailFastScan.Scanner.Flush | internal/app/lockfile_drift_scanner.go:429-448 | The one question about the batch: its failure (git down, or the first candidate that cannot be probed) is the outcome, and otherwise the first outcome of the rule-by-rule replay of the buffered snapshots is |
| FailFastScan.Scanner.VisitSnapshot | internal/app/lockfile_drift_scanner.go:375-415 | Takes the step of the batched scan: settles the batch before an unreadable snapshot or a git-free finding, buffers what must ask, makes room first, and settles at once when drift is known |
| FailFastScan.Scanner.HandleWalkEntry | internal/app/lockfile_drift_scanner.go:488-503 | Takes the step of one walk entry; a failing entry is reported only after the buffered snapshots had their say |
| FailFastScan.Scan | internal/app/lockfile_drift_scanner.go:362-516 | For every walk and rule list the outcome is that of the batched steps (what these say is DriftVerdict.ScanVerdict); it agrees with the rule-by-rule replay in walk order up to the paths that git names while it is down, or is the failing filter probe of a tracked path that a buffered snapshot of the walk asks about |
| FailFastSteps.SettleAgrees | internal/app/lockfile_drift_scanner.go:429-448 | The outcome of a batch is the first outcome of the replay of its snapshots, up to the paths that git names while it is down, or the failing probe of one of the asked paths |
| FailFastSteps.VisitAgrees | internal/app/lockfile_drift_scanner.go:375-415 | After the step of one snapshot the outcome still to come, or reported, is that of replaying the buffered snapshots and this one; a step in which git fails on a batch is over with that failure, and the replay with the outcome of that batch |
| FailFastSteps.FailingReplayEnds | internal/app/lockfile_drift_scanner.go:429-486 | Where git fails on a batch, replaying its snapshots rule by rule ends at one of them too |
| FailFastSteps.ScanDiffersExactlyWhen | internal/app/lockfile_drift_scanner.go:362-516 | The batched scan reports what the rule-by-rule replay in walk order reports, except exactly when git fails on a batch and the replay of the snapshots in that batch ends otherwise; both outcomes are given for that case |
| FailFastSteps.ScanAgrees | internal/app/lockfile_drift_scanner.go:362-516 | Corollary in terms of the walk alone: the difference can only be a failing filter probe of a tracked path that a buffered snapshot asks about, or, while git is down, in the text of the failure |
| FailFastSteps.ProbeFailureComesFirst | internal/app/lockfile_drift_scanner.go:429-448 | Of two buffered snapshots, the first with a manifest-change warning and the second with a candidate that cannot be probed, the replay reports the warning and the batched scan the probe failure |
| FailFastSteps.ProbeFailureExample | internal/app/lockfile_drift_scanner.go:429-448 | Two concrete directories and a repository for which this happens |
| PreparedScan.ReadErrors.Add | internal/app/lockfile_drift_scanner.go:108-125 | Read errors are collected once per file and message key, in order |
| PreparedScan.ReadErrors.Merge | internal/app/lockfile_drift_scanner.go:127-131 | Merging another collector adds its new records in order |
| PreparedScan.ManifestCache.Read | internal/app/lockfile_drift_scanner.go:731-750 | The cache answers what reading the manifest would answer |
| PreparedScan.EvaluateDirectory | internal/app/lockfile_drift_scanner.go:873-900 | The rule loop over one directory computes the direct evaluation of the reference: lines in order, read errors once each, and the first fatal error |
| PreparedScan.RuleAgrees | internal/app/lockfile_drift_scanner.go:985-1031 | Preparing one rule keeps exactly what is needed to answer it later, or settles it as direct evaluation does |
| PreparedScan.ChangeReplays | internal/app/lockfile_drift_scanner.go:1084-1112 | A retained manifest-change rule replays to the finding of the direct evaluation |
| PreparedScan.DirAgrees | internal/app/lockfile_drift_scanner.go:956-979 | Preparing and replaying a directory gives the lines and read errors of evaluating it directly |
| PreparedScan.PrepareThenReplay | internal/app/lockfile_drift_scanner.go:319-341 | On an unchanged file system the two passes give the same findings, ordered warnings and de-duplicated read errors as direct evaluation in the same git context, and the same fatal error |
| PreparedScan.CandidatesSuffice | internal/app/lockfile_drift_scanner.go:545-570 | Knowing the changes among the prepared candidates is as good as knowing every change |
| PreparedScan.PrepareScan | internal/app/lockfile_drift_scanner.go:319-341 | The prepare pass over the walk computes the preparation of the reference |
| PreparedScan.ReplayScan | internal/app/lockfile_drift_scanner.go:319-341 | The replay pass computes the replay of the reference |
| PreparedScan.WarnMode | internal/app/lockfile_drift_scanner.go:275-341 | The two-pass warn mode fails with the fatal error of direct evaluation or the error of the git question, joined with the read errors, and otherwise reports what direct evaluation with every change known reports (what that says is DriftVerdict.WarnVerdict) |
| PreparedScan.FailModeStopsAtTheFirstLine | internal/app/lockfile_drift_scanner.go:343-373 | Without filters, failing probes, git failure or read errors, the batched fail mode reports the first line of warn mode and is quiet exactly when warn mode is |
| DriftVerdict.RuleVerdict | internal/app/lockfile_drift_scanner.go:1198-1317 | What one rule concludes about a directory, over the files, the manifest texts and the changed paths: missing exactly when a manifest and no lockfile is there and no exemption applies (an absent needle, a go.mod without a require line, a Cargo.toml without a [[bin]] section); stale exactly when lockfiles are there without a manifest, or with one that is not the own one; changed exactly when a listed manifest changed and no listed lockfile did; with the manifest or the lockfiles each warning names, and the errors |
| DriftVerdict.AsksAbout | internal/app/lockfile_drift_scanner.go:601-637 | A rule asks git about exactly its manifests and lockfiles, when both are there and the first manifest is its own |
| DriftVerdict.DirectoryVerdict | internal/app/lockfile_drift_scanner.go:459-486 | Over a list of rules the first that says something is heard |
| DriftVerdict.ScanVerdict | internal/app/lockfile_drift_scanner.go:362-516 | While git is up and answers, batched fail mode ends with the first verdict in the order of the walk and of the rules, and is quiet exactly when no rule says anything |
| DriftVerdict.WarnVerdict | internal/app/lockfile_drift_scanner.go:784-900 | Warn mode reports every verdict in the order of the walk and of the rules, a manifest that is too large once for each directory, up to the first other error |
| AdvisoryPublication.UpdateManifest | internal/advisory/sync.go:855-888 | The new manifest is sorted by ID, lists the new entry as latest, keeps every other listed ID and invents nothing |
| AdvisoryPublication.EntryShape | internal/advisory/sync.go:281-301 | The entry of a download has its whole digest and size, and an ID and a path from the first 24 digits of it |
| AdvisoryPublication.PublishesExactlyWhen | internal/advisory/sync.go:320-384 | What a process finds under the name decides: nothing, and its file is placed there and published; a file of the size and digest of the download, and that one is published; any other, and it gives up with files and manifest unchanged |
| AdvisoryPublication.LinkKeepsInv | internal/advisory/sync.go:328-338 | Linking without replacing keeps the invariant |
| AdvisoryPublication.ConfirmKeepsInv | internal/advisory/sync.go:344-353 | The linked name is found to lead to the own file, and the invariant is kept |
| AdvisoryPublication.CompareKeepsInv | internal/advisory/sync.go:356-384 | An existing file that was opened earlier is accepted by size and digest while it still is the file under the name |
| AdvisoryPublication.WriteKeepsInv | internal/advisory/sync.go:855-888 | Writing the update of the manifest that was read in an earlier step keeps the invariant |
| AdvisoryPublication.TwoInsideLoseAnID | internal/advisory/sync.go:186-207 | Without exclusion the same steps lose a published ID: two processes that both read the manifest before either writes it |
| AdvisoryPublication.TestKeepsInv | internal/advisory/sync.go:401-411 | A rollback finds its own file under the name |
| AdvisoryPublication.RemoveKeepsInv | internal/advisory/sync.go:412-417 | The removal after that test keeps the invariant and restores the files found at lock time |
| AdvisoryPublication.StepKeepsInv | internal/advisory/sync.go:145-184 | Every step of every process, failures and crashes included, keeps the invariant |
| AdvisoryPublication.ManifestAlwaysHolds | internal/advisory/sync.go:145-184 | In every interleaving each manifest entry names an existing file of the recorded digest and size, and the latest ID is listed |
| AdvisoryPublication.NoIDIsLost | internal/advisory/sync.go:855-888 | An ID whose manifest write succeeded is listed in every later state, even when 24-digit IDs collide |
| AdvisoryPublication.RollbackSparesTheManifest | internal/advisory/sync.go:401-417 | The removal of a rollback takes or changes no file the manifest names |
| AdvisoryPublication.FilesAreNeverReplaced | internal/advisory/sync.go:320-354 | As long as a path stays present it keeps its file |
| AdvisoryPublication.GivingUpLeavesNoTrace | internal/advisory/sync.go:145-184 | A publication that gives up leaves manifest and files as it found them, or, when removing its own file failed, with that one file added |
| AdvisoryPublication.MutualExclusion | internal/advisory/sync.go:186-207 | At most one process is between taking and releasing the lock |
| Codeowners.HasInvalidStars | internal/dashboard/routing.go:360-379 | Reports exactly the patterns with a star run that is not one star or a whole segment of two |
| Codeowners.IsUnsupported | internal/dashboard/routing.go:351-358 | Decides exactly which patterns are refused |
| Codeowners.GlobRegexp | internal/dashboard/routing.go:116-176 | Succeeds exactly on supported patterns, with the text of the translated expression; what that text matches is CodeownersText.TextMatchesOwnedPaths |
| Codeowners.TranslationIsFaithful | internal/dashboard/routing.go:116-176 | For every supported pattern and clean relative path the expression matches exactly when the pattern owns the path by its own segments: those between its slashes are matched one by one, an empty first or a second nonempty one anchors it, and an empty last one or one without stars and question marks covers what lies below |
| Codeowners.SegmentsOwn | internal/dashboard/routing.go:116-143 | Anchoring, core and covering as the code computes them own what the segments of the pattern own, for every path |
| CodeownersText.TextReadsBack | internal/dashboard/routing.go:145-168 | The text of a translation, read by the grammar of regular expressions, is the expression it was written for |
| CodeownersText.TextMatchesOwnedPaths | internal/dashboard/routing.go:116-176 | So the text, read by that grammar, matches exactly the clean paths that the pattern owns by its segments |
| OsvTokens.Decoder.DiscardOpenedValue | internal/advisory/sync.go:1346-1363 | The depth loop takes tokens up to the closing delimiter, or fails at the end of the stream |
| OsvTokens.Decoder.ReadAffectedField | internal/advisory/sync.go:1204-1242 | One affected field updates the shape or fails, as the field function says |
| OsvTokens.Decoder.ReadAdvisoryField | internal/advisory/sync.go:1128-1154 | One advisory field updates the shape or fails, as the field function says |
| OsvTokens.Validate | internal/advisory/sync.go:1021-1044 | The validators over one shared decoder accept exactly the token streams of the specification |
| OsvTrees.DiscardSkips | internal/advisory/sync.go:1331-1363 | Discarding takes exactly one value, whatever it contains |
| OsvTrees.PackageAgrees | internal/advisory/sync.go:1244-1269 | The package check accepts exactly objects with at most one, nonblank, name and says whether there is one |
| OsvTrees.VersionsAgree | internal/advisory/sync.go:1271-1288 | The versions check accepts exactly arrays of strings and says whether one is nonblank |
| OsvTrees.RangesAgree | internal/advisory/sync.go:1290-1305 | The ranges check accepts exactly arrays of objects and says whether there is one |
| OsvTrees.AffectedObjectAgrees | internal/advisory/sync.go:1187-1202 | An affected entry is accepted by its unique well-formed fields, and usable when it names a package and constrains its version |
| OsvTrees.AffectedEntriesAgree | internal/advisory/sync.go:1169-1185 | The affected array is accepted when all entries are, and usable when one is |
| OsvTrees.AdvisoryObjectAgrees | internal/advisory/sync.go:1111-1126 | An advisory object is accepted exactly when its tree satisfies the recursive advisory shape |
| OsvTrees.TopLevelObjectAgrees | internal/advisory/sync.go:1061-1090 | A top-level object is accepted for its vulns array or as a single advisory, with unique checked fields |
| OsvTrees.ValidatorDecidesTheShape | internal/advisory/sync.go:1021-1385 | The validator accepts the tokens of a document exactly when its tree has the advisory shape and nothing follows |
| OsvLoad.ConstrainsVersions | internal/advisory/load.go:229-239 | Decides whether there is a range or a nonblank version |
| OsvLoad.AdvisoriesFromOSV | internal/advisory/load.go:203-227 | The nested loops report, in order, every named and constrained affected entry of entries with a nonblank ID; the records this makes of a document are those of OsvComplete.AcceptedEntryLoads |
| OsvLoad.ParseOSVDocument | internal/advisory/load.go:167-185 | The list form, the wrapped form and the single form are tried in this order; each fails on a document nested too deep, on a field of another type, and on a number out of range in an untyped map |
| OsvComplete.AcceptedEntryLoads | internal/advisory/load.go:203-227 | An accepted entry without case variants of checked fields decodes exactly when its other decoded fields are typed, with every number in an untyped map in the range of a float64, and then yields exactly one record for each usable affected entry, in order: the ID text, the text of its package name, the texts of its versions and the items of its ranges, as the tree has them |
| OsvComplete.LoadsExactlyWhen | internal/advisory/load.go:111-165 | An accepted document without case variants of checked fields: with a local list it loads as that list or fails with it; any other loads exactly when it is not nested too deep and its entries, or else the object itself, are typed and complete, and yields exactly their records |
| OsvComplete.NoEntryIsLostExactlyWhen | internal/advisory/load.go:111-185 | No entry of an accepted document without case variants of checked fields is lost exactly when the document is not nested too deep, all decoded fields of its entries are typed, there is an entry, and there is no local list; the result is then exactly the records of all entries in document order |
| OsvSchema.AdvisoryDecodes | internal/advisory/load.go:33-71 | Any entry, accepted or not, decodes exactly when its tree fits the struct types: texts, lists and maps where the types say so, null anywhere, field names in any letter case, every number in an untyped map in the range of a float64 |
| OsvSchema.WrappedDecodes | internal/advisory/load.go:167-201 | The same for the wrapped form |
| OsvSchema.LocalFileDecodes | internal/advisory/load.go:144-165 | The same for local files, which hold no advisory exactly when the last advisories field is empty |
| OsvSchema.TooDeepExactlyWhen | internal/advisory/load.go:187-201 | A document is refused for its nesting exactly when 10001 arrays and objects stand one within the other |
| OsvSchema.CompleteExactlyWhen | internal/advisory/load.go:111-185 | The condition under which no entry is lost, from the tree alone: not nested too deep, at least one entry, every entry of the struct type, and no local list |
| OsvComplete.MistypedFieldFails | internal/advisory/load.go:33-71 | A number in an unchecked text field is accepted and fails to load |
| OsvComplete.HugeNumberFails | internal/advisory/load.go:33-50 | A number without a float64, such as 1e999, under database_specific is accepted and fails to load |
| Float64.DigitRowsFit | internal/advisory/load.go:187-201 | A whole number of up to 255 digits is in range |
| OsvComplete.DeepValueFails | internal/advisory/load.go:187-201 | A value nested ten thousand deep in an unchecked field, and there are such values, is accepted and fails to load |
| OsvComplete.MistypedEntryLosesAll | internal/advisory/load.go:175-184 | One mistyped field in one wrapped entry loses every entry of the wrapper |
| OsvComplete.EmptyDocumentsFail | internal/advisory/load.go:137-142 | An empty list and an empty wrapper are accepted and fail to load |
| OsvComplete.LocalListHidesEntries | internal/advisory/load.go:119-124 | A nonempty advisories list takes the place of all entries of an accepted object, unless the document is nested too deep to load at all |
| OsvComplete.LocalListLoads | internal/advisory/load.go:144-165 | A file with one list of local advisories reports the ID and package text of each, in order |
| OsvComplete.CaseVariantLosesTheEntry | internal/advisory/load.go:187-201 | A later field ID with an empty text, whatever the accepted advisory, passes the checks and makes loading fail |
| MsBuild.ApplyMetadata | internal/analysis/identity_enrichment_dotnet.go:365-404 | Unconditional metadata is set in every variant, conditional metadata doubles the variants, duplicates go |
| MsBuild.Parser.DecodeItems | internal/analysis/identity_enrichment_dotnet.go:289-315 | Reads the metadata children of one item element up to its end |
| MsBuild.Parser.ConsumeStart | internal/analysis/identity_enrichment_dotnet.go:235-255 | Collects an item, an activation, or pushes the flag and enters a scope |
| MsBuild.Parser.Parse | internal/analysis/identity_enrichment_dotnet.go:204-233 | The token loop computes the token-level reading |
| MsBuildMeaning.SameCondition | internal/analysis/identity_enrichment_dotnet.go:406-413 | An element is conditional exactly when it has a nonblank attribute named Condition in some letter case |
| MsBuildMeaning.SameScope | internal/analysis/identity_enrichment_dotnet.go:415-425 | A scope is conditional exactly when it has such a condition or is Choose, When or Otherwise in some letter case |
| MsBuildMeaning.SamePackage | internal/analysis/identity_enrichment_dotnet.go:317-343 | The package of an item is its last Include, or else its last Update, trimmed, and it is an update without an Include |
| NuGetVersions.TagReads | internal/analysis/identity_enrichment_dotnet.go:235-255 | Which elements take effect, what items they name and which metadata they state: the evaluation says this from raw tags and attributes, and the parser reads the same |
| MsBuild.FlagStackFollowsTheTree | internal/analysis/identity_enrichment_dotnet.go:204-271 | On the tokens of a document the flag stack reads what recursion over the element tree, with inherited conditions, reads |
| NuGetVersions.Project.Apply | internal/analysis/identity_enrichment_dotnet.go:427-481 | The project model after one item: a new candidate, or all candidates updated, with the originals kept when the item is conditional |
| NuGetVersions.Central.Apply | internal/analysis/identity_enrichment_dotnet.go:483-523 | The central model after one item: conditional includes add the unknown version, updates replace or, when conditional, join the candidates |
| NuGetCoverage.UpdateReaches | internal/analysis/identity_enrichment_dotnet.go:427-456 | Applying the variants of an update covers the update by the variant that the conditions select |
| NuGetCoverage.VariantsRepresent | internal/analysis/identity_enrichment_dotnet.go:365-379 | Some variant has the metadata that any truth of the conditions selects, and only the first can be unconditional |
| NuGetCoverage.ElementCovered | internal/analysis/identity_enrichment_dotnet.go:289-315 | One item element keeps the coverage, whether its conditions hold or not |
| NuGetCoverage.NodesCovered | internal/analysis/identity_enrichment_dotnet.go:204-271 | Reading any part of a document keeps the coverage of its evaluation |
| NuGetEvidence.ProjectCandidatesCover | internal/analysis/identity_enrichment_dotnet.go:108-125 | For every truth of the conditions, each version that document-order evaluation of the raw tags gives a present package is a candidate |
| NuGetEvidence.CentralCandidatesCover | internal/analysis/identity_enrichment_dotnet.go:127-147 | The same for central package versions |
| NuGetEvidence.EffectiveVersions | internal/analysis/identity_enrichment_dotnet.go:568-591 | Effective versions are, candidate by candidate, the override, else the version, else the central candidates, each once |
| NuGetEvidence.PackageEvidence.AppendDeclaration | internal/analysis/identity_enrichment_dotnet.go:537-566 | Declared evidence is every exact version, withheld without a lock when one version is not exact, with one unknown entry instead |
| NuGetEvidence.InexactSourceIsFirst | internal/analysis/identity_enrichment_dotnet.go:541-546 | The source of a withheld version is that of the first candidate that is not exact and has a source |
| NuGetEvidence.ResolvedIsEffective | internal/analysis/identity_enrichment_dotnet.go:568-591 | With central versions in use as NuGet has them, every version a covered instance resolves to is an effective version, unless an ignored override takes its place |
| NuGetEvidence.ResolvedIsEffectiveOrInexact | internal/analysis/identity_enrichment_dotnet.go:568-591 | When the code is more cautious about central versions than NuGet, a version that only the central file gives shows as one that is not exact |
| NuGetEvidence.DeclaredEvidenceIsComplete | internal/analysis/identity_enrichment_dotnet.go:537-591 | Unlocked declared evidence has every version the project can resolve under any truth of the conditions in project and central file, those that switch central versions on included, unless central versions are off and an override other than the version takes its place |
| NuGetSoundness.ProjectCandidatesArePossible | internal/analysis/identity_enrichment_dotnet.go:427-481 | The other direction: every candidate of a project is what some choice of its conditional elements and metadata leads to |
| NuGetSoundness.CentralCandidatesArePossible | internal/analysis/identity_enrichment_dotnet.go:483-523 | The same for the versions of a central file |
| NuGetSoundness.CentralVersionsExactlyWhen | internal/analysis/identity_enrichment_dotnet.go:483-514 | A central file gives a package a version, or the unknown one of a conditional include, exactly when an item gives it and no later unconditional update takes it away |
| NuGetSoundness.DeclaredIsPossible | internal/analysis/identity_enrichment_dotnet.go:568-591 | Every effective version is the override or else the version of an instance that some choice leads to, or, where it has neither, the version of a possible central entry, or not known |
| NuGetSoundness.CentralInUseExactlyWhen | internal/analysis/identity_enrichment_dotnet.go:273-287 | Central versions are taken to be in use exactly when the central file switches them on last and without any conditional switch, and the project does so too or has no switch |
| NuGetEvidence.ActivationIsCertain | internal/analysis/identity_enrichment_dotnet.go:273-287 | When central versions are taken to be active, no truth of the conditions switches them off |
| NuGetEvidence.BlankUpdateEscapes | internal/analysis/identity_enrichment_dotnet.go:427-456 | In a document of an include and an update with a blank version, MSBuild takes the version away and the candidates keep it |
| NuGetEvidence.OverrideHidesTheVersion | internal/analysis/identity_enrichment_dotnet.go:568-591 | In a project without central versions that gives a package a version and another override, NuGet resolves the version and the declared evidence is the override alone |
| NuGetEvidence.CompleteExactlyWhen | internal/analysis/identity_enrichment_dotnet.go:537-591 | For a project of one such element and any central file, the declared evidence has the resolved version exactly when no ignored override takes its place or both are the same exact version |
| SemVer.PrecedenceIsTotal | internal/analysis/identity_enrichment_cargo_version.go:164-194 | Precedence of versions is a strict total order (section 11 of SemVer 2.0.0) |
| SemVer.PrecedenceExactlyWhen | internal/analysis/identity_enrichment_cargo_version.go:164-194 | The comparison is the precedence of section 11 of SemVer 2.0.0: cores first, a release above its pre-releases, identifiers from the left, numbers by value and below names |
| CargoRequirement.ReleaseMatchesInterval | internal/analysis/identity_enrichment_cargo_version.go:130-232 | A release matches a clause of any operator exactly when its core lies in an explicit half-open interval |
| CargoRequirement.MeetIsIntersection | internal/analysis/identity_enrichment_cargo_version.go:36-62 | The meet of two intervals holds exactly the common cores |
| CargoRequirement.ReleaseAcceptedInterval | internal/analysis/identity_enrichment_cargo_version.go:36-62 | A release is accepted exactly when its core lies in the meet of the intervals of the clauses |
| CargoRequirement.CompleteClauseMeaning | internal/analysis/identity_enrichment_cargo_version.go:130-232 | For all versions, pre-releases included, a clause with three components means what precedence says |
| CargoRequirement.PartialClauseMeaning | internal/analysis/identity_enrichment_cargo_version.go:151-232 | Which pre-releases a clause with open components admits, by interval of cores |
| CargoRequirement.AcceptedPrerelease | internal/analysis/identity_enrichment_cargo_version.go:46-61 | A pre-release is accepted exactly when it shares its core with a clause that names a pre-release, is in the range of every complete clause and admitted by every other |
| CargoSyntax.ParsePartial | internal/analysis/identity_enrichment_cargo_version.go:243-284 | The component loop reads the version the grammar function reads |
| CargoSyntax.ParseWildcard | internal/analysis/identity_enrichment_cargo_version.go:103-128 | The scan finds the first wildcard and refuses anything but wildcards behind it |
| CargoSyntax.ParseClause | internal/analysis/identity_enrichment_cargo_version.go:64-101 | The operator loop picks the first operator that prefixes the text |
| CargoSyntax.VersionSatisfies | internal/analysis/identity_enrichment_cargo_version.go:36-62 | The loop with early exits decides satisfaction as defined on the parsed clauses |
| CargoText.ReadClauseIsWellFormed | internal/analysis/identity_enrichment_cargo_version.go:64-128 | Parsed clauses have one to three components, none or more only for wildcards, with zeros for the rest |
| CargoGrammar.ReadsExactlyTheSpelled | internal/analysis/identity_enrichment_cargo_version.go:243-284 | A text is read as a version exactly when it spells that version: one to three numbers of the range of an int between dots, leading zeros allowed, identifiers behind a minus, build metadata behind a plus, white space around it |
| CargoGrammar.IdentifierCharacters | internal/analysis/identity_enrichment_cargo_version.go:243-284 | The characters of identifiers are letters of either case, digits and hyphens (section 9 of SemVer 2.0.0) |
| CargoGrammar.ReadsExactlyTheClauses | internal/analysis/identity_enrichment_cargo_version.go:64-128 | A text is read as a clause exactly when it spells that clause: an operator with a version, three numbers or no pre-release, no wildcard in it; a version alone; or wildcards behind fewer than three numbers, or one alone |
| CargoText.ReleaseSatisfiesInterval | internal/analysis/identity_enrichment_cargo_version.go:36-62 | For every requirement text that parses, a release text satisfies it exactly when its core lies in the meet of the intervals of its clauses, which are those of all its parts (CargoLists.ClausesReadEach) |
| CargoLists.ClausesReadEach | internal/analysis/identity_enrichment_cargo_version.go:45-52 | The parts between the commas are read exactly when each of them is a clause, and then the i-th clause is that of the i-th part |
| CargoLists.LineRead | internal/analysis/identity_enrichment_cargo_version.go:64-101 | A written clause with white space around it and behind its operator is read back |
| CargoLists.RequirementRead | internal/analysis/identity_enrichment_cargo_version.go:36-55 | Written clauses joined by commas, with white space anywhere around them, are read back in their order |
| CargoLists.SatisfiesEveryClause | internal/analysis/identity_enrichment_cargo_version.go:36-62 | A written release, whatever its build metadata, satisfies a written requirement exactly when it lies in the interval of every clause |
| CargoRoundTrip.PartialRoundTrip | internal/analysis/identity_enrichment_cargo_version.go:243-284 | Reading a written version, with or without build metadata, gives it back |
| CargoRoundTrip.ClauseRoundTrip | internal/analysis/identity_enrichment_cargo_version.go:64-128 | Reading a written clause, build metadata included, gives it back exactly when no x stands alone between its dots; behind an operator it is otherwise refused |
| CargoRoundTrip.BuildLooksWild | internal/analysis/identity_enrichment_cargo_version.go:103-125 | A version with build metadata b.x reads well, and a clause that demands it is refused |
| BaselineEnvelope.SkipString | internal/baseline/snapshot.go:259-277 | Finds the end of the string on every text, or fails; a success moves forward |
| BaselineEnvelope.SkipJsonValue | internal/baseline/snapshot.go:279-303 | The depth loop ends where the value function ends, on every text |
| BaselineEnvelope.DecodeVersion | internal/baseline/snapshot.go:215-238 | Only a string that decodes is a version |
| BaselineEnvelope.Envelope.Field | internal/baseline/snapshot.go:161-206 | One field changes the state as the field function says and moves the index strictly forward |
| BaselineEnvelope.InspectSnapshot | internal/baseline/snapshot.go:113-153 | The field loop ends on every text and classifies as the function does |
| BaselineText.ValuePassed | internal/baseline/snapshot.go:279-323 | Inside brackets, passing over a well-formed value changes nothing, whatever it nests or quotes |
| BaselineText.ValueSkipped | internal/baseline/snapshot.go:279-303 | At the top level, skipping takes exactly one well-formed value |
| BaselineText.FieldRead | internal/baseline/snapshot.go:161-206 | A well-formed member has the effect of its decoded name and value, wherever white space stands |
| BaselineText.ClassifiedByMembers | internal/baseline/snapshot.go:113-327 | Every well-formed object text (section 4 of RFC 8259) is classified as typed, legacy or invalid by its top-level members alone |
| BaselineText.BrokenTextIsClassified | internal/baseline/snapshot.go:113-213 | A text that breaks off, or goes on as no object does, behind some members is classified by these members |
| BaselineText.TrailingTextIsClassified | internal/baseline/snapshot.go:127-137 | An object with something behind it is classified as a broken text with its members |
| BaselineText.NoObjectIsLegacy | internal/baseline/snapshot.go:113-121 | A text that does not start an object is legacy |
| Codemod.SplitLines | internal/app/codemod_apply.go:369-391 | The lines are canonical (LF or CRLF separators, last one open) and join back to the content |
| Codemod.LinesUnique | internal/app/codemod_apply.go:369-400 | A content has only one canonical list of lines, so splitting undoes joining |
| Codemod.Validate | internal/app/codemod_apply.go:352-367 | Returns the first error: line out of range, line targeted twice, or text mismatch |
| Codemod.NoErrorMeansApplicable | internal/app/codemod_apply.go:352-367 | No error is found exactly when all suggestions name distinct existing lines by their exact text |
| Codemod.EditBottomUp | internal/app/codemod_apply.go:337-348 | Descending in-place edits equal editing every line on its own at once |
| Codemod.Untouched | internal/app/codemod_apply.go:331-350 | Lines without a suggestion keep text and separator |
| Codemod.NoSuggestionsNoChange | internal/app/codemod_apply.go:331-350 | Without suggestions every line stays, mixed line endings included |
| Codemod.OrderDoesNotMatter | internal/app/codemod_apply.go:337-341 | The edit is the same for every order of the suggestions |
| Codemod.LinesLeft | internal/app/codemod_apply.go:331-350 | The lines that no suggestion deletes are left in their order; each has the separator it had, and the replacement if a suggestion names it or else its own text |
| Codemod.ApplySuggestions | internal/app/codemod_apply.go:331-350 | Succeeds exactly when the suggestions apply to the lines of the content, with every original line edited on its own; otherwise the first error |
| MixDelimiters.MachineDecidesBalance | internal/analysis/identity_enrichment_ruby_elixir.go:618-644 | The stack machine accepts exactly the well-nested texts of the bracket grammar |
| MixDelimiters.GroupEndsOnce | internal/analysis/identity_enrichment_ruby_elixir.go:618-644 | A bracketed group has one end |
| MixDelimiters.MatchingDelimiterEnd | internal/analysis/identity_enrichment_ruby_elixir.go:618-644 | Returns an index exactly when the text from the opening delimiter to it is one group, well nested and closed there |
| MixDelimiters.SplitTopLevelTerms | internal/analysis/identity_enrichment_ruby_elixir.go:646-701 | Succeeds exactly for blank text or well-nested masks without blank terms before the last comma, and returns the pieces between the top-level commas |
| MixDelimiters.TermsRejoin | internal/analysis/identity_enrichment_ruby_elixir.go:646-673 | The terms rejoined with commas are the text, up to one comma with a blank behind it |
| MixDelimiters.TermsAreBalanced | internal/analysis/identity_enrichment_ruby_elixir.go:675-693 | Every piece between top-level commas is well nested |
| CachePayload.NewPayload | internal/analysis/cache_storage.go:157-171 | The payload records the incomplete dependencies and their nonempty suppressed imports |
| CachePayload.CachedPayload.RestoreUsageIncomplete | internal/analysis/cache_storage.go:173-181 | Marks the recorded dependencies, or fails exactly on an index outside the report |
| CachePayload.CachedPayload.RestoreSuppressed | internal/analysis/cache_storage.go:183-194 | Puts back the recorded imports whatever the map order, or fails exactly on a bad index or a complete dependency |
| CachePayload.CachedPayload.Restore | internal/analysis/cache_storage.go:69-78 | Both steps after loading give the restored report of the reference, or fail exactly when it has none, in every map order |
| CachePayload.RoundTrip | internal/analysis/cache_storage.go:157-194 | A stored report comes back with everything but suppressed imports of complete dependencies |
| CachePayload.UnchangedExactlyWhen | internal/analysis/cache_storage.go:157-194 | It comes back unchanged exactly when no complete dependency has suppressed imports |
| CachePayload.BuiltComesBack | internal/analysis/merge.go:113-143 | A report built by assessing coverage and by merging, in which imports are suppressed on incomplete dependencies alone, comes back unchanged |
| AnalysisCache.Cache.Lookup | internal/analysis/cache_storage.go:26-88 | Counts one hit or one miss with its reason for every lookup in use that does not fail, and answers by pointer and object |
| AnalysisCache.HitsExactlyWhen | internal/analysis/cache_storage.go:26-88 | A report is served exactly when the cache is in use and trusted, the pointer was stored for this input, and the object it names gives that report back; this and nothing else counts as one hit |
| AnalysisCache.MissIsExplained | internal/analysis/cache_storage.go:26-103 | A miss counts once and is put down to its reason: an untrusted cache, a corrupt pointer, changed inputs, a missing or unreadable object; to none when there was no pointer |
| AnalysisCache.UntrustedServesNothing | internal/analysis/cache_storage.go:90-122 | A process that does not trust the cache is served nothing; it counts a miss, put down to this when there is a pointer, unless it cannot see whether there is one |
| AnalysisCache.StepKeepsInv | internal/analysis/cache_storage.go:26-155 | Every step of storing and looking up keeps the invariant |
| AnalysisCache.StoreCompletes | internal/analysis/cache_storage.go:124-155 | A store that nothing interrupts can always be completed: the object lies under its digest, the pointer leads to it, one write is counted, and nothing else changes |
| AnalysisCache.EveryRunIsConsistent | internal/analysis/cache_storage.go:26-155 | In every interleaving pointers name existing objects of their digest, hits return reports stored under the same key and input, and hits plus misses are the answered lookups |
| AnalysisCache.StoredIsFound | internal/analysis/cache_storage.go:124-155 | After a completed store, in every run in which nobody completes another store under the key, a process that looks the entry up is served that report, whatever others do before and during the lookup |
| InputDigest.StreamInjective | internal/analysis/cache_entry.go:129-201 | Equal digest streams come from equal records, for every configuration path, as no hashed file is called config |
| InputDigest.LineFeedCollides | internal/analysis/cache_entry.go:145-152 | Why no hashed file may be called config: beside such a file, a configuration path of its digest, a line feed and a name would pass for it and the file of that name |
| InputDigest.ConfigIsNotRelevant | internal/analysis/cache_files.go:75-99 | The relevance test does not admit a file called config |
| InputDigest.RelevantExactlyWhen | internal/analysis/cache_files.go:75-99 | A file is relevant by its lower-case name alone: it ends like a version catalog, is a listed lockfile or configuration name, or ends in a listed extension |
| InputDigest.CollectRelevantFiles | internal/analysis/cache_files.go:18-49 | The walk collects the relevant regular files in order, or fails where it cannot walk on |
| InputDigest.InputStream | internal/analysis/cache_entry.go:129-163 | Collecting the relevant files, sorting the inputs and writing their records gives the key-sorted records of the tree, or fails when a file cannot be read or the walk fails |
| InputDigest.RecordedExactlyWhen | internal/analysis/cache_entry.go:129-181 | The stream is that of exactly the relevant regular files with their digests and of the configuration with its digest or missing mark; there is none exactly when the walk stops, a relevant file cannot be hashed, or the configuration is there and cannot be |
| InputDigest.RecordsAscend | internal/analysis/cache_entry.go:129-157 | The records stand in the order of their keys, each key once |
| InputDigest.WalkOrderDoesNotMatter | internal/analysis/cache_entry.go:129-157 | The stream is the same for every order in which the walk finds the files |
| InputDigest.SameStreamSameInputs | internal/analysis/cache_entry.go:129-163 | Equal streams of any two trees under any two configuration paths mean the same relevant files with the same digests, and the same configuration with the same digest or missing mark |
| InputDigest.Memo.DigestOf | internal/analysis/cache_entry.go:110-127 | The memo answers what computing answers, and remembers digests but not errors |
| ChangedRoots.ContainsIsPrefix | internal/analysis/pipeline.go:274-280 | A root contains the files whose path it begins |
| ChangedRoots.RootIndex | internal/analysis/pipeline.go:251-258 | The index lists every root under its place and nothing else |
| ChangedRoots.AppendAncestors | internal/analysis/pipeline.go:229-249 | The climb ends and adds exactly the roots at or above the path, each once |
| ChangedRoots.UniqueSorted | internal/analysis/pipeline.go:300-313 | The result is strictly ascending with the same members |
| ChangedRoots.ChangedRootsOf | internal/analysis/pipeline.go:212-227 | Returns exactly the roots that contain a changed file, sorted, each once |
| WorkerPool.PlanExecution | internal/app/dashboard_execution.go:33-80 | Planned jobs have distinct slots inside the results, with at least one worker when there is work |
| WorkerPool.StepKeepsInv | internal/app/dashboard_execution.go:82-116 | Every step of dispatcher and workers keeps the accounting of jobs and slots |
| WorkerPool.NeverStuck | internal/app/dashboard_execution.go:82-116 | Before the pool has returned some step is possible |
| WorkerPool.EveryScheduleEnds | internal/app/dashboard_execution.go:82-116 | Every schedule ends after the same number of steps, and only by returning |
| WorkerPool.PoolEqualsSequential | internal/app/dashboard_execution.go:82-116 | Whatever the schedule, each job runs exactly once and the results are those of running the jobs in order, all other slots untouched |
| WorkerPool.SlotsOfTheJobs | internal/app/dashboard_execution.go:82-116 | These results slot by slot: the result of the job of that slot, and otherwise what the plan put there, or nothing when it put nothing anywhere |
| RefAllocator.Allocator.Allocate | internal/dashboard/format.go:720-736 | Terminates with a new reference: the base for its first holder, else an unreserved numbered name |
| RefAllocator.PortfolioReferences | internal/dashboard/format.go:632-675 | All references of a report are distinct, and exactly the first holder of each base keeps it unchanged |

## Left out

- Rules with a manifest matcher but no text to look for: no rule the scanner is built with has that form.
- Cancellation of a context: it can end a scan or a worker's analysis early, which the models do not show.
- `PreparedScan.WarnMode`: covers git work trees; the branch outside of them asks git nothing.
- Git fails on every command, with a text that may depend on the asked paths, or on the filter probe of single paths; the failure of one other command alone is not shown.
- Text is a sequence of characters of one byte each: case folding, white space and identifier classes are those of ASCII.
- Publication: temporary files, the clock in manifest entries, symbolic links, pinned directories and identity checks of the cache root are not part of this model, nor is the polling interval of the lock loop.
- Regular expressions: Go's compiler is not part of this model; `CodeownersText` reads the text by a grammar of the constructs that translations use.
- OSV: splitting the file into tokens (the standard decoder's work) is not modelled, nor are ZIP snapshots, YAML sources, and what severities, aliases, sources and fixed versions of loaded advisories become once they are decoded; when `vulns`, `affected`, `versions` or `ranges` is decoded twice, reuse of the first list's storage by the decoder is not shown (an accepted document can repeat them only in another letter case). Loading refuses files over 8 MiB (internal/advisory/load.go:17) where a synchronised snapshot may be larger (internal/advisory/sync.go:29); the documents of the model are within both limits.
- MSBuild: items whose names hold property, item or metadata expressions are ignored by the code and by the evaluation; item lists with several names or wildcards, imports, properties inside versions, XML comments and name spaces are not part of this model. A `Choose` is covered because any truth of its branches is.
- NuGet: `exactNuGetVersion` is an arbitrary function that refuses the empty text; lock files only enter as the flag that there is one, and which central file is nearest is not modelled. MSBuild is taken to let the project's own activation value go before that of the central file, and NuGet to honour a `VersionOverride` only while central versions are on.
- `NuGetSoundness.ProjectCandidatesArePossible`: the choices of a document's conditional elements and metadata are free of each other, so conditions that exclude one another are not told apart; elements without a package name and updates that state a blank version are not covered (for the latter see `NuGetEvidence.BlankUpdateEscapes`).
- Cargo: locked versions are compared without build metadata, as precedence does; wildcard clauses are written without pre-release and build metadata.
- Baseline: decoding a quoted string is an arbitrary partial function; decoding the report of a typed snapshot is not part of this model.
- Codemod: reading and atomically replacing files, rollback artifacts and the messages of errors are left out.
- Mix: masking strings and comments is left out; the mask is an input of the same length.
- Analysis cache: serialization is the pair of `Transported` and an injective digest, so the cache is taken to keep everything JSON writes; that a nil and an empty list are written alike where empty fields are omitted is not shown. Permissions, opening the write root, `prepareEntry` and files removed or corrupted from outside are left out of the protocol (`Cache.Lookup` has the branches for them).
- Input digest: SHA-256 itself is left out, the stream it reads is what is shown to be injective; the directories that the walk skips do not enter it. Names of files hold no NUL, and a path with a NUL cannot be opened.
- Cache payload: a complete dependency with suppressed imports would not come back unchanged (`CachePayload.UnchangedExactlyWhen`), but no report that is built has one (internal/lang/js/reporting.go:83-92, internal/analysis/merge.go:118-128).
- Changed roots: places are clean absolute paths; how a relative root is made absolute is a parameter.
- Worker pool: the analyzer is a function of the request; the request's settings are carried by the input.
- CycloneDX: how base names are built from repositories and dependencies is left out.
- HTML, CSV and Markdown output, command lines, notifications, CVSS scores, language adapters, `internal/analysis/merge.go` and `internal/dashboard/remediation.go`: not modelled; their work is formatting, table lookup, and unions of maps.
