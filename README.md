# cogs: a Dafny model of the diagnostics bookkeeping

cogs is a Visual Studio Code extension for Rust. Its core is bookkeeping around compiler
diagnostics:

- it runs `cargo check` (or `cargo rustc --example`) with JSON messages;
- it turns the output lines into an ordered map from file to diagnostics;
- it writes that map into the editor's diagnostic collection;
- it finds the crate a file belongs to by walking up to the nearest `Cargo.toml`;
- it keeps a per-crate registry of lints;
- it shows counts, a lint cursor and a sorted list of files in two status bar items;
- it decides, on editor events, when and what to lint.

This project models that core in Dafny and proves what each part promises.

| module (file) | models |
|---|---|
| `Paths` (paths.dfy) | paths as segment sequences; `dirname`, `basename`, the `fsPath` string and its `startsWith` test |
| `Text` (text.dfy) | decimal printing of numbers, zero padding, and reading numbers back out of a text |
| `Diagnostics` (diagnostics_api.dfy) | `Diagnostic`, severities, and the diagnostic collection as a class (entries plus insertion order) |
| `DiagnosticStream` (diagnostic_stream.dfy) | the per-line walk shared by both parsers, and the `forEach` of `dia.set` calls |
| `Linter` (linter.dfy) | src/linter.ts |
| `LegacyLinter` (legacy_linter.dfy) | src/diagnostics.ts |
| `Common` (common.dfy) | src/common.ts |
| `Crates` (crates.dfy) | src/crates.ts |
| `FilePicks`, `PickOrder` (file_picks.dfy, pick_order.dfy) | counting, main-diagnostic choice, descriptions, picks and their sort, shared by src/lintStatus.ts and src/fancyLint.ts |
| `LintStatus` (lint_status.dfy) | src/lintStatus.ts |
| `FancyLint` (fancy_lint.dfy) | src/fancyLint.ts |
| `CogsMain` (main.dfy) | src/main.ts |
| `Extension` (extension.dfy) | src/extension.ts |
| `Profile` (profile.dfy) | src/profile.ts |

## How the environment is modelled

- **Cargo output:** each output line arrives already decoded as a `Line`:
  - `Blank`;
  - `Malformed`, for text that `JSON.parse` rejects;
  - `MissingMessage`, for valid JSON without a `message` object;
  - `Record(msg)`, with the fields the code reads.
- **Throwing lines:** for `MissingMessage`, reading `tm.level` throws outside the `try`. This aborts the whole parse, and the run with it. This follows the code: it is not true that every line can be skipped.
- **Inputs as parameters:** the set of existing paths (`fs`), cargo's output, the clock and the configured `runLinterOnSave` are all parameters.
- **Paths:**
  - a path is a sequence of segments, and `[]` is `/`;
  - `path.dirname` of `/` is `/`;
  - string tests such as `startsWith` are made on `Render(p)`, the `fsPath` string. This keeps the sibling-directory quirk: `/a/bc` starts with `/a/b`.
- **The diagnostic collection:** a class with a map of entries and the order files were first set in (the order `forEach` visits).
- **Thrown exceptions:** modelled as an `Option` result, a `threw`/`completed` flag or an outcome. Whatever the code changed before the throw stays changed.
- **Calls that never return:** the crate-root walk of src/common.ts and src/extension.ts never returns for a file without a manifest above it. A call that runs it says so in its result: `Hangs` (of `Ends`), `Hung` (of a listing's `Visit`), `Spinning` (of an event handler's `Outcome`), or a `hangs` flag. The state given with it is the one in which the walk starts.

## Model

| member | source | states |
|---|---|---|
| Diagnostics.DiagnosticCollection.constructor | src/main.ts:92 | a new collection is empty |
| Diagnostics.DiagnosticCollection.Get | src/lintStatus.ts:105 | `get` gives a file's list, or nothing when the file has no entry |
| Diagnostics.DiagnosticCollection.Set | src/linter.ts:26 | `set` replaces one file's list; a file new to the collection goes last in the visiting order |
| Diagnostics.DiagnosticCollection.Delete | src/crates.ts:111 | `delete` removes one file's entry and its place in the order, and leaves the rest |
| Diagnostics.DiagnosticCollection.Clear | src/linter.ts:45 | `clear` empties the collection |
| Diagnostics.WithoutAppend | src/crates.ts:111 | deleting a file from a concatenation deletes it from each part |
| Diagnostics.StoredSeverity | src/linter.ts:114-117 | a diagnostic built with a severity keeps it; one built with `undefined` is stored as Error |
| DiagnosticStream.FirstPrimary | src/linter.ts:77 | the first span marked primary; none exactly when no span is primary |
| DiagnosticStream.SeverityOf | src/linter.ts:107-115 | Error exactly for "error", Warning exactly for "warning", and no severity (`undefined`) for any other level |
| DiagnosticStream.ZeroBased | src/linter.ts:83-86 | the range is the primary span's 1-based positions, each minus one |
| DiagnosticStream.Append | src/linter.ts:138-143 | a diagnostic goes at the end of its file's list; a new file gets a one-element list and goes last |
| DiagnosticStream.Step | src/linter.ts:55-144 | one line keeps the map well formed (distinct files, one entry per file) |
| DiagnosticStream.Collect | src/linter.ts:52-146 | the walk over all lines gives a well-formed ordered map, or aborts |
| DiagnosticStream.CollectGroupsByFile | src/linter.ts:138-143 | a file has an entry exactly when some kept record names it; its list is those records' diagnostics in arrival order; the files are in order of first appearance |
| DiagnosticStream.FirstMentions | src/linter.ts:138-140 | the files some kept record names, each once, in order of first appearance |
| DiagnosticStream.AbortedStaysAborted | src/linter.ts:69-70 | once a line has thrown, no later line undoes it |
| DiagnosticStream.CollectAbortsIff | src/linter.ts:69-70 | the parse throws exactly when some line is JSON without a `message` |
| DiagnosticStream.SkippedLineIsInert | src/linter.ts:58-67 | a blank or malformed line can be removed without changing the result, wherever it sits |
| DiagnosticStream.NothingKeptGivesEmpty | src/linter.ts:52-146 | output in which nothing is kept and nothing throws gives the empty map |
| DiagnosticStream.KeptNothing | src/linter.ts:55-144 | if every record is dropped, nothing is kept |
| DiagnosticStream.CollectDiagnostics | src/linter.ts:53-145 | the `forEach` loop that fills the map computes `Collect` |
| DiagnosticStream.NewFiles | src/linter.ts:24-27 | the files the map adds to the collection are those it had no entry for |
| DiagnosticStream.NoNewFilesWhenEmpty | src/linter.ts:45-49 | after `clear`, every file of the map is new |
| DiagnosticStream.Publish | src/linter.ts:24-27 | after the `set` loop, every parsed file has its parsed list, every other file keeps its list, and new files follow in the map's order |
| DiagnosticStream.PublishNext | src/linter.ts:26 | one `set` extends the published prefix by one file |
| Linter.MisspeltCaseNeverFires | src/linter.ts:89-95 | as written, every kept record with rustc's "mismatched types" message keeps that top-level message, whatever its children |
| Linter.RustcSpellingJoinsChildren | src/linter.ts:89-92 | with the test spelt as rustc prints the message, a "mismatched types" record with two children is kept exactly when it is kept as written, and then shows the two children's text |
| Linter.Convert | src/linter.ts:58-137 | a record is kept iff it is not the abort notice, has a primary span, and its file exists or its level is "error"; the file is projectDir joined with `file_name`; the range is zero-based; the severity is Warning iff the level is "warning" and Error otherwise; the code follows the record; a record whose message is the tested text takes its two children's text, or else the span label |
| Linter.ParseDiagnosticsFromJsonLines | src/linter.ts:52-146 | with the conversion as written (the test on "mistmatched types"): the result is `Collect`; it throws iff a line lacks `message`; each file's list is its kept diagnostics in arrival order, and the files are in order of first appearance |
| Linter.AbortNoticeOnlyGivesEmpty | src/linter.ts:72-74 | output of only blank lines and abort notices gives the empty map |
| Linter.AbortNoticeKeepsNothing | src/linter.ts:72-74 | abort notices contribute no diagnostic |
| Linter.NoMissingMessage | src/linter.ts:69-71 | output made of blank lines and records has no throwing line |
| Linter.RunLinterForProject | src/linter.ts:30-50 | with the conversion as written, the collection ends up equal to the parsed map, in its order; a throwing parse leaves it untouched |
| Linter.RunLinterForExample | src/linter.ts:9-28 | with the conversion as written, parsed files get their new lists, other files keep theirs, new files are appended; a throwing parse leaves it untouched |
| LegacyLinter.LegacyConvertKeeps | src/diagnostics.ts:22-71 | a record is kept iff it is not the abort notice, has a primary span and names an existing file; the message is the record's own, the source is "check", the range is zero-based |
| LegacyLinter.LegacyFilesExist | src/diagnostics.ts:66-71 | every kept diagnostic is filed under an existing file, errors included |
| LegacyLinter.ParseLegacyOutput | src/diagnostics.ts:20-78 | the walk computes `Collect`, throws iff a line lacks `message`, files only existing paths, and lists the files in order of first appearance |
| LegacyLinter.LegacyMapFilesExist | src/diagnostics.ts:66-77 | every file of the parsed map exists |
| LegacyLinter.FiledUnderKeptFile | src/diagnostics.ts:72-77 | a file with diagnostics is named by some kept record |
| LegacyLinter.RunLegacyLinterForProject | src/diagnostics.ts:7-84 | after clear-then-set the collection is exactly the parsed map, and only existing files have entries |
| Common.CrateRootHoldsManifest | src/common.ts:8-9 | a root found is the start or one of its ancestors, and holds the manifest |
| Common.CrateRootIsNearest | src/common.ts:6-12 | no directory between the start and the root found holds a manifest |
| Common.NoCrateRootIff | src/common.ts:7-13 | nothing is found exactly when neither the start nor any ancestor holds a manifest |
| Common.FindCrateRootFrom | src/common.ts:7-13 | the loop as it is meant to run, stopping after the root has been probed: the nearest manifest directory, or null |
| Common.FindCrateRoot | src/common.ts:4-14 | as written, from the file's own directory: returns the nearest ancestor holding `Cargo.toml`, and never returns when there is none |
| Common.SearchCrateRootFrom | src/common.ts:6-13 | the `while` loop as written: it returns the nearest manifest directory, or keeps walking at `/` forever |
| Common.SearchFromIsTheWalk | src/common.ts:6-13 | the search never returns exactly when the loop as written is still walking after any number of iterations, and a root it returns is the one that loop returns |
| Common.WalkAsWrittenNeverGivesUp | src/common.ts:7 | as written, the loop condition `dir != ""` never ends the loop |
| Common.WalkAsWrittenSpins | src/common.ts:7-12 | as written, with no manifest on the way up, the loop is still running after any number of iterations |
| Common.WalkAsWrittenRootLoops | src/common.ts:7-11 | as written, the loop stays at `/` forever when `/` has no manifest |
| Common.WalkAsWrittenCounterexample | src/common.ts:6-13 | `/main.rs` with no manifest anywhere: the intended walk returns null, the loop as written never returns |
| Common.WalkAsWrittenAgrees | src/common.ts:7-12 | where a manifest exists, the loop as written returns the same root as the intended walk |
| Crates.NewCrate | src/crates.ts:13-23 | a new crate has the given root, a terminal named after the root's last segment, no lints and the flag down |
| Crates.UpdatedCrates | src/crates.ts:49-62 | `updateTarget` creates the target's crate as a new crate for the root if absent, forwards the lints to that crate only, and raises its flag iff the target is the crate's main target |
| Crates.LintedFlagNeverReverts | src/crates.ts:55-61 | a crate's `hasBeenLintedOnce` never goes back to false |
| Crates.OutsideRoot | src/crates.ts:109-113 | the files kept by clearing are exactly those whose string does not start with the root's |
| Crates.FilesInCrateAreCleared | src/crates.ts:110-112 | every file inside the crate's directory is cleared |
| Crates.SiblingDirectoryIsCleared | src/crates.ts:110 | clearing `/a/b` also clears `/a/bc/x.rs`, which is not inside it |
| Crates.CrateManager.constructor | src/crates.ts:34-37 | the registry starts empty |
| Crates.CrateManager.AddCrate | src/crates.ts:40-46 | a known root throws and changes nothing; otherwise the root maps to a new crate |
| Crates.CrateManager.UpdateTarget | src/crates.ts:49-62 | the table becomes `UpdatedCrates` of the old one |
| Crates.CrateManager.HasLintsForTarget | src/crates.ts:65-71 | false for an unknown crate, otherwise the cache's answer |
| Crates.CrateManager.HasLintsForFile | src/crates.ts:76-83 | never returns when the file has no crate root (the walk as written); otherwise false for an unknown crate, and the cache's answer for a known one |
| Crates.CrateManager.HasCrateBeenLinted | src/crates.ts:87-93 | false for an unknown crate, otherwise its flag |
| Crates.CrateManager.GetTerminal | src/crates.ts:96-101 | afterwards the crate exists; it is created only if it was missing |
| Crates.CrateManager.ClearLints | src/crates.ts:104-114 | no change for an unknown crate; otherwise exactly the entries under the root's string are deleted, and the order of the rest is kept |
| Crates.CrateManager.Dispose | src/crates.ts:116-121 | the table is empty |
| FilePicks.MainOfIsErrorFirst | src/lintStatus.ts:167-188 | a file is shown by one of its own diagnostics; there is one iff it has an error or warning, and it is an error iff the file has an error |
| FilePicks.MainOfWithoutRangeOrder | src/lintStatus.ts:168-188 | when no range compares below another, the main diagnostic is the first error, or else the first warning |
| FilePicks.SummarizeFile | src/lintStatus.ts:165-188 | the loop counts errors and warnings and finds the main diagnostic |
| FilePicks.CountFile | src/lintStatus.ts:106-115 | a file's error and warning counts |
| FilePicks.DescriptionReadsBack | src/lintStatus.ts:189-195 | the description gives back both counts, a missing part reading as 0 |
| FilePicks.PicksAreShownFiles | src/lintStatus.ts:157-208 | without a throw, the picks are the non-empty files under the crate, in order, each with its counts, its description and at least one lint |
| FilePicks.PicksStopAtFirstStop | src/lintStatus.ts:157-207 | listing completes iff every shown file has a crate root and an error or a warning; otherwise the first shown file that does not decides: the walk never returns when it has no crate root, and reading `mainError.range` throws when it has no error or warning |
| FilePicks.VisitShown | src/lintStatus.ts:157-207 | a shown file gets a pick iff it has a crate root and an error or warning; it hangs iff it has no crate root; it throws iff it has a root but neither |
| FilePicks.PicksStayAborted | src/lintStatus.ts:157 | once one file has stopped the `forEach`, the later files change nothing |
| FilePicks.VisitOne | src/lintStatus.ts:157-207 | the callback for one file skips it, never returns, throws, or builds its pick, as `VisitFile` says |
| FilePicks.BuildPicks | src/lintStatus.ts:156-208 | the `forEach` builds the picks in the collection's order, or stops the way the first failing file stops |
| PickOrder.CompareIsConsistent | src/lintStatus.ts:209-221 | the comparator is antisymmetric, is 0 iff the three keys agree, and orders errors descending, warnings descending, label ascending |
| PickOrder.InOrderTotal | src/lintStatus.ts:209-221 | any two picks are comparable |
| PickOrder.InOrderTransitive | src/lintStatus.ts:209-221 | the order is transitive |
| PickOrder.InsertSorted | src/lintStatus.ts:209 | inserting into a sorted list keeps it sorted |
| PickOrder.SortPicks | src/lintStatus.ts:209-221 | the sorted picks are in comparator order and are a permutation of the picks |
| LintStatus.SourcesInCount | src/lintStatus.ts:69-79 | a file contributes as many lints as it has diagnostics of that severity |
| LintStatus.SourcesInExact | src/lintStatus.ts:69-79 | a file's lints of a severity are exactly its diagnostics of that severity |
| LintStatus.CrateSourcesExact | src/lintStatus.ts:66-81 | the crate's lints of a severity are exactly those diagnostics in files whose string starts with the root's |
| LintStatus.CrateLintsAt | src/lintStatus.ts:82 | the crate's lint list is as long as its error and warning counts together |
| LintStatus.CollectCrateLints | src/lintStatus.ts:66-81 | the loop over the collection gathers the crate's errors and warnings in order, and counts them |
| LintStatus.CollectFileLints | src/lintStatus.ts:69-79 | the loop over one file appends its errors and its warnings |
| LintStatus.StatusTextReadsBack | src/lintStatus.ts:98 | the bar text gives back the four counts it shows |
| LintStatus.NextLintIndexAsWrittenLeavesList | src/lintStatus.ts:146-149 | as written, with two or more lints the index only moves up by one, so from the last lint it leaves the list; with one lint it stays |
| LintStatus.NextLintIndex | src/lintStatus.ts:146 | the corrected index is in range, moves up by one, and wraps from the last lint to the first |
| LintStatus.NextLintIndexCycles | src/lintStatus.ts:146-148 | stepping from the last lint visits every lint in turn |
| LintStatus.LintStatusBar.constructor | src/lintStatus.ts:24-45 | with no editor, zero counts and a zero text; with one whose file has a crate, its file is current and its crate counted; with one whose file has none, the state in which the never-ending walk starts |
| LintStatus.LintStatusBar.UpdateText | src/lintStatus.ts:89-100 | the text shows the file and crate counts, and nothing else changes |
| LintStatus.LintStatusBar.UpdateCrateLints | src/lintStatus.ts:58-86 | the crate is recounted, the cursor goes to the last lint, and the file is counted; with no crate root the walk never returns, after the current file has been set |
| LintStatus.LintStatusBar.UpdateCrateLintsIfNew | src/lintStatus.ts:48-55 | recounts only when the file's crate root differs from the current one, and refreshes the text; with no crate root the walk never returns |
| LintStatus.LintStatusBar.UpdateCurrentFile | src/lintStatus.ts:103-120 | the file's counts are the collection's, 0 and 0 without an entry, and the text shows them |
| LintStatus.LintStatusBar.GotoNextCrateLint | src/lintStatus.ts:142-152 | as written: nothing without lints; otherwise the cursor moves to `current + 1 % length`; past the end, reading the lint throws and nothing is revealed, otherwise the lint there is revealed |
| LintStatus.LintStatusBar.ShowErrorFiles | src/lintStatus.ts:155-221 | the sorted picks of the files under the crate root, or the stop of the first failing file |
| FancyLint.FancyTextReadsBack | src/fancyLint.ts:35-37 | the bar text gives back the two counts it shows |
| FancyLint.CountsAsWrittenAreAllWarnings | src/fancyLint.ts:44-50 | as written, no error is counted, every diagnostic counts as a warning, and each is turned into a warning |
| FancyLint.CountsAsWrittenMiscount | src/fancyLint.ts:45-49 | as written, a file with one error shows 0 errors and 1 warning |
| FancyLint.LintStatusHelper.constructor | src/fancyLint.ts:10-24 | 0 and 0 with no editor; with one, what `updateStatus` as written gives for its file: 0 errors, every diagnostic counted as a warning and turned into one |
| FancyLint.LintStatusHelper.SetFancyLintText | src/fancyLint.ts:35-37 | the text shows the two numbers |
| FancyLint.LintStatusHelper.UpdateStatus | src/fancyLint.ts:39-55 | with comparisons, the text shows the file's error and warning counts, 0 and 0 without an entry |
| FancyLint.LintStatusHelper.UpdateStatusAsWritten | src/fancyLint.ts:39-55 | as written, the text shows 0 errors and every diagnostic as a warning, and the file's diagnostics become warnings |
| FancyLint.LintStatusHelper.OnDidChangeActiveTextEditor | src/fancyLint.ts:26-32 | nothing without an editor; otherwise what `updateStatus` as written gives for the new file |
| FancyLint.LintStatusHelper.ShowErrorFiles | src/fancyLint.ts:57-119 | the sorted picks of every non-empty file, with no crate filter, or the stop of the first failing file |
| CogsMain.ExampleDirectoryFile | src/main.ts:22-33 | a `.rs` file in a crate directory whose name starts with `example` is an example, `example-data` included, since the joined prefix has no trailing separator |
| CogsMain.ExampleFileIsExample | src/main.ts:22-33 | a `.rs` file in the crate's `examples` directory is an example |
| CogsMain.OtherFileIsNotExample | src/main.ts:22-33 | a file whose first directory below the root does not start with `e` is not an example |
| CogsMain.CargoFileIsManifestName | src/main.ts:58-60 | a document is a manifest iff its name is exactly `Cargo.toml` |
| CogsMain.ExampleName | src/main.ts:41 | the example's name is the file name without its `.rs` |
| CogsMain.Dispatch | src/main.ts:35-52 | never returns for a file with no crate, so "No cargo project found" is never shown; otherwise an example lint, named after the file, iff the file is an example, else a project lint, always of the file's crate |
| CogsMain.ManifestDispatchesToProject | src/main.ts:104-106 | linting the workspace's manifest lints the whole crate |
| CogsMain.TimeTextReadsBack | src/main.ts:74-80 | the "Linted at" text gives back the time it shows |
| CogsMain.TimeTextLength | src/main.ts:76-79 | a clock time always shows as `HH:MM:SS` |
| CogsMain.Lint | src/main.ts:40-47 | the example or the project linter runs, with its contract |
| CogsMain.Session.constructor | src/main.ts:14-17 | no run yet, the bar hidden, the collection empty |
| CogsMain.Session.RunLinter | src/main.ts:35-52 | never returns for a file with no crate, with nothing changed; a throwing parse changes nothing; otherwise the dispatched lint is applied and the time shown |
| CogsMain.Session.Activate | src/main.ts:83-107 | the bar shows the default text, then the active Rust file or else the workspace manifest is linted; the latch is set only once the run returns |
| CogsMain.Session.OnDidSaveTextDocument | src/main.ts:124-130 | a save lints only a Rust document or a manifest, and only with the setting on |
| CogsMain.Session.OnDidChangeActiveTextEditor | src/main.ts:137-167 | the latch only goes up; a linted session lints again only for an example with no entry; `isExample` never returns for a Rust file with no crate |
| CogsMain.Session.OnDidChangeConfiguration | src/main.ts:169-171 | the setting is read again and nothing else changes |
| Text.Pad2 | src/main.ts:76-78 | values up to 99 give exactly two digits, which read back as the value |
| Extension.FindLegacyCrateRoot | src/extension.ts:18-28 | as written, from the parent of the file's directory: returns the nearest ancestor holding `cargo.toml`, and never returns when there is none |
| Extension.LegacyWalkSkipsOwnDirectory | src/extension.ts:20 | a manifest next to the file is not found by this walk, but is by the walk of common.ts |
| Extension.LegacyWalkNeedsLowerCase | src/extension.ts:22 | on a case-sensitive file system, a crate with only `Cargo.toml` is not found |
| Extension.LegacyTimeTextReadsBack | src/extension.ts:42-45 | the unpadded text gives back the time it shows |
| Extension.TimeTextLength | src/extension.ts:42-45 | the unpadded text is as wide as its prefix, the digits of the three fields and two colons, so its width varies with the time |
| Extension.LegacySession.constructor | src/extension.ts:12-15 | no run yet, the bar hidden, the collection empty |
| Extension.LegacySession.RunLinter | src/extension.ts:30-40 | never returns for a file with no crate; otherwise the whole crate is linted and the time shown; a throwing parse changes nothing |
| Extension.LegacySession.Activate | src/extension.ts:48-54 | the bar shows the default text |
| Extension.LegacySession.OnDidSaveTextDocument | src/extension.ts:83-88 | a save lints only files ending in `.rs`, and only with the setting on; otherwise nothing changes; the bar's visibility and the latch never change |
| Extension.LegacySession.OnFirstDocument | src/extension.ts:90-107 | lints only while the latch is down, and raises it once the run returns; with the latch up nothing changes; the bar's visibility never changes |
| Extension.LegacySession.OnDidOpenTextDocument | src/extension.ts:90-96 | the first document lints its crate and the latch goes up once the run returns; with the latch up nothing changes; the bar's visibility never changes |
| Extension.LegacySession.OnDidChangeActiveTextEditor | src/extension.ts:98-107 | nothing without an editor or with the latch up; otherwise the first editor lints its crate and the latch goes up once the run returns; the bar's visibility never changes |
| Extension.LegacySession.OnDidChangeConfiguration | src/extension.ts:109-111 | the setting is read again |
| Profile.FindVersion | src/profile.ts:15 | the leftmost `digits.digits` match, or none exactly when nothing matches |
| Profile.FindVersionSkips | src/profile.ts:15 | a run of non-digits is skipped by the search |
| Profile.CargoVersionIsRead | src/profile.ts:15-18 | the version printed after a non-digit prefix is the one read, major and minor |
| Profile.IsOfficialMeansAtLeast016 | src/profile.ts:19 | the corrected test is "the version is at least 0.16" |
| Profile.DetermineCheckType | src/profile.ts:11-27 | the intended test: null exactly when cargo cannot run or its output holds no version; official exactly when the version is not below 0.16, unofficial exactly when it is |
| Profile.DetermineCheckTypeAsWritten | src/profile.ts:11-27 | as written: null exactly when cargo cannot run or its output holds no version; official exactly when the minor version is at least 16, whatever the major |
| Profile.AsWrittenDiffersIff | src/profile.ts:19 | the two tests differ exactly on versions from 1.0 up whose minor version is below 16, which the code as written calls unofficial |
| Profile.DetermineCheckTypeAsWrittenMisclassifies | src/profile.ts:15-23 | as written, `cargo 1.5.0` is unofficial; the corrected test says official |
| Profile.ProfileTextDistinguishes | src/profile.ts:54-64 | the text tells the setting and whether the check is unofficial |
| Profile.NullPrintsAsOfficial | src/profile.ts:55 | an unknown check prints like an official one |
| Profile.Profile.constructor | src/profile.ts:36-38 | the setting is the configured one and the check version is what `determineCheckType` as written gives |
| Profile.Profile.Update | src/profile.ts:40-43 | refreshes the setting, then the capabilities as `determineCheckType` as written gives them |
| Profile.Profile.UpdateSettings | src/profile.ts:45-48 | only the setting changes |
| Profile.Profile.UpdateCapabilities | src/profile.ts:50-52 | only the check version changes, to what `determineCheckType` as written gives |

## Left out

- Running processes (`cargo check`, `cargo rustc`, `cargo --version`, `echo $RUST_SRC_PATH`) is not modelled. Their output is a parameter, including the stdout recovered in the `catch`.
- `JSON.parse` is not modelled: lines arrive decoded.
- Console logging is not modelled.
- `fs.existsSync` is a set of paths, and names match exactly, as on a case-sensitive file system. On a case-insensitive volume (the default on macOS and Windows) `cargo.toml` also finds `Cargo.toml`; that is not modelled, so Extension.LegacyWalkNeedsLowerCase holds only where names are case-sensitive.
- `path.join` and `path.relative` are modelled on segment sequences. Node's normalisation of `.` and `..` is not modelled.
- Editor effects are not modelled: showing and hiding bars, quick picks, opening documents, `revealRange`, terminals, error messages, and command and listener registration. The bars' visible state and text are modelled. The `cogs.run` and `cogs.runLinter` commands only call `runLinter` or show a message.
- Relational comparison of two ranges (`diagnostic.range < mainError.range`) is the parameter `rangeLess`.
- `LintCache`, `Target.eq` and `findTarget` are not defined in the modelled files:
  - a crate logs the updates forwarded to its cache;
  - the cache queries are function parameters;
  - the main target is a parameter.
- src/settings.ts, src/suggestions.ts and src/run.ts are not part of this model.
- `workspace.rootPath` is a given path. Its being undefined, with no folder open, is not modelled.
- `new Date()` is not modelled; the clock is a parameter.
- `parseInt` beyond exact integers is not modelled; numbers are unbounded.
- Array sort: the result is fixed by its comparator (sorted, a permutation). The exact order that `Array.prototype.sort` gives to equal picks is not modelled.
- Crates.CrateManager.Dispose: the terminals are not modelled, so disposing only empties the table.
- LintStatus.LintStatusBar.constructor: with an active editor whose file has no crate, the source's constructor never returns. A Dafny constructor returns, so the model returns the state in which the walk starts, as its contract says.
- PickOrder.StringLess: labels are compared by Unicode scalar value. JavaScript's `>` compares UTF-16 code units, which orders characters beyond U+FFFF differently.
- LintStatus: the initial `""` crate root and current file are `None`. An empty root string is a prefix of every path, and the model keeps that (`ShowErrorFiles` filters nothing while there is no crate).
- Extension.LegacySession.OnDidChangeActiveTextEditor: the document is given by its file name only, since extension.ts reads nothing else from it.

## Findings

| source | as written | input that shows it | evidently intended | confidence | as-written member | corrected member |
|---|---|---|---|---|---|---|
| src/lintStatus.ts:146 | `this.currentShownLintIndex + 1 % this.crate.lints.length` adds `1 % length` | a crate with 2 lints and the cursor on the last one: the index becomes 2 and `lints[2].filePath` throws | `(current + 1) % length`, wrapping to the first lint | high, not executed | LintStatus.NextLintIndexAsWrittenLeavesList | LintStatus.NextLintIndexCycles |
| src/fancyLint.ts:45-49 | `diagnostic.severity = DiagnosticSeverity.Error` assigns. Error is 0 (falsy), so the second assignment to Warning (1) always runs | a file with one error shows `0` errors and `1` warning, and the error is now stored as a warning | `===` comparisons, counting errors and warnings without changing them | high, not executed | FancyLint.CountsAsWrittenMiscount | FancyLint.LintStatusHelper.UpdateStatus |
| src/linter.ts:89 | compares the message with `"mistmatched types"` | rustc's `"mismatched types"` error with two children keeps only the top-level message | the special case for `"mismatched types"` | high, not executed | Linter.MisspeltCaseNeverFires | Linter.RustcSpellingJoinsChildren |
| src/profile.ts:19 | `major >= 0 && minor >= 16`, where `major >= 0` always holds | `cargo 1.5.0` is classed as unofficial | the version is at least 0.16 | medium, not executed | Profile.DetermineCheckTypeAsWrittenMisclassifies | Profile.DetermineCheckType |
| src/common.ts:7 | `while (dir != "")`, but `path.dirname("/")` is `"/"`, so the condition never fails | `/main.rs` with no `Cargo.toml` anywhere: the loop never returns instead of returning null. src/extension.ts:21 has the same loop | stop after probing the root and return null | high, not executed | Common.WalkAsWrittenCounterexample | Common.NoCrateRootIff |
