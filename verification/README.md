# qbit scan-and-aggregate core, modelled in Dafny

qbit is a static analyser for smart contracts. It walks a folder. Every `.rs` file is scanned
as Rust and every `.sol` file as Solidity-Ethereum. Each line of a scanned file is matched
against the catalog checks of its language. A primary-pattern match becomes a finding. A
safe-pattern match becomes evidence that the code uses the safe idiom. An external service
then validates the findings of each file with a single status label. Finally one report per
language is assembled.

This project models `analyze_folder` and the per-language report summary built in `main`.
It follows the code with the same branches, constants and error conditions, and raises
the errors in the same order. One step is reordered. The source creates the language's
entry and pushes the file's path (`qbit/src/main.rs:129-133`) before it scans and validates
the file. The model records both after those steps succeed. No caller can tell the
difference, because any error discards the whole map.

Modules, leaf first:

- `Outcomes` (`outcomes.dfy`): `Option`, `Result` and the three errors that abort a run.
  - `Unreadable` is a failed `read_to_string`.
  - `BadPattern` is a primary pattern that fails `Regex::new`.
  - `ValidationFailed` is a failed call to the validation service.
- `Catalog` (`catalog.dfy`): the check record, the per-language filter, and the
  `find(...).unwrap()` lookup by id.
- `Paths` (`paths.dfy`): `Path::extension` computed on the text after the last `/`, and the
  language it selects.
- `Evidence` (`evidence.dfy`): the `SafePatternDetail` map and one safe-pattern hit
  (`entry(...).or_insert_with`, then `occurrences += 1`, then push the path if it is new).
- `Matcher` (`matcher.dfy`): the nested loop over lines and applicable checks.
  - It is stated as a left fold that stops at the first pattern that does not compile.
  - Reference definitions say what the fold must yield: findings per line, and hits per
    check id.
- `Vulnerabilities` (`vulnerabilities.dfy`): turning a file's findings into
  `VulnerabilityResult`s.
- `Analyzer` (`analyzer.dfy`): one loop iteration (`ProcessFile`) and the whole loop
  (`AnalyzeFolder`).
  - A reference per language (`StateOk`) says which files are listed, which results are
    produced, and which evidence is kept.
  - Lemmas prove that the loop computes exactly that reference, and say when the run aborts
    and with which error.
- `Report` (`report.dfy`): `FinalReport` and `SecurityAnalysisSummary` as assembled in `main`.

External parameters:

- The regular-expression engine is a `RegexEngine`. It holds a compile predicate and a match
  predicate, and both are parameters.
- The directory walk becomes the input sequence of `FileEntry` values in discovery order.
  Each entry holds the path, the lines (`None` if reading fails) and the status the
  validation service answers for that file (`None` if the call fails).
- The iteration order of the evidence `HashMap` is a parameter `order`. It must list every
  key exactly once.

Behaviour of the code worth knowing:

- **A malformed primary pattern is not rejected up front.** `Regex::new` runs inside the
  per-line loop (`qbit/src/main.rs:138-140`). The run therefore fails only when a non-empty
  file of that check's language is scanned. Files processed before that point are read and
  validated first. `FileError` and `AnalyzeOutcome` state this.
- **The bad-pattern error carries the check.** `BadPattern` holds the id and the pattern text
  of the first check of that language, in catalog order, whose pattern does not compile. The
  library's error describes only the pattern; naming the check is a choice of this model.
- **A safe pattern that does not compile is treated as absent** (`qbit/src/main.rs:141-144`,
  where `.ok()` turns the error into `None`).
- **The title and description are looked up by id** (`qbit/src/main.rs:196-209`). They come
  from the first catalog entry carrying the finding's id, which is not necessarily the check
  that fired.
  - They coincide when ids are unique (`Vulnerabilities.ResultUsesMatchedCheck`).
  - The lookup never fails, because every finding's id comes from the catalog
    (`Vulnerabilities.FindingsKnown`).
- **The file list is not deduplicated** (`qbit/src/main.rs:133`). It gets one entry per
  scanned file the walker yields (`Analyzer.ScannedPathsSpec`). It is unique only because
  the walker yields each path once.

## Model

| member | source | states |
|---|---|---|
| Paths.RustDetection | qbit/src/main.rs:116-126 | a path is scanned as "Rust" exactly when it ends in ".rs" after a non-empty file stem |
| Paths.SolidityDetection | qbit/src/main.rs:116-126 | a path is scanned as "Solidity-Ethereum" exactly when it ends in ".sol" after a non-empty file stem |
| Paths.SkippedPaths | qbit/src/main.rs:116-126 | every other path is skipped without error |
| Paths.SuffixGivesExtension | qbit/src/main.rs:117 | a path whose final component is a non-empty stem, a dot and a non-empty extension without dots or separators has that extension |
| Paths.EmptyExtension | qbit/src/main.rs:117 | the extension is empty exactly when the path ends in a dot after a non-separator character and its final component is not ".." |
| Paths.ExtensionGivesSuffix | qbit/src/main.rs:117 | conversely, a path with extension e ends in "." + e after a non-empty stem |
| Paths.LanguageOfExtension | qbit/src/main.rs:122-126 | "rs" selects Rust, "sol" selects Solidity-Ethereum, and nothing else selects either |
| Paths.Extension | qbit/src/main.rs:117 | the extension never holds a dot or a separator; `SuffixGivesExtension` and `ExtensionGivesSuffix` characterise non-empty extensions exactly, and `EmptyExtension` the empty one |
| Paths.LanguageOf | qbit/src/main.rs:122-126 | a path is scanned as "Rust" or "Solidity-Ethereum" or not at all; `RustDetection` and `SolidityDetection` say which paths select which |
| Paths.FileName | qbit/src/main.rs:117 | the final component is a separator-free suffix of the path, preceded by a separator when shorter than the path |
| Paths.LastIndexOf | qbit/src/main.rs:117 | returns the position of the last occurrence of a character, or None exactly when the character does not occur |
| Catalog.Applicable | qbit/src/main.rs:139 | the checks run on a file are exactly the catalog's checks of its language; a single check is kept exactly when its language matches |
| Catalog.ApplicableConcat | qbit/src/main.rs:139 | filtering distributes over concatenation, so the filter keeps the catalog order and keeps a repeated check repeated |
| Catalog.FindById | qbit/src/main.rs:196-199 | the lookup succeeds exactly when some check has the id; the result has that id and no earlier check has it |
| Catalog.FindByIdUnique | qbit/src/main.rs:196-199 | with unique ids, looking a check up by its own id finds that very check |
| Evidence.RecordHit | qbit/src/main.rs:155-170 | one hit adds exactly one occurrence for that id and none for any other; it appends the path only if it is not yet listed; it keeps existing metadata; it creates a new entry from the check (id, title, safe-pattern text); it keeps files duplicate-free and non-empty with no more files than occurrences |
| Evidence.AdvancedCompose | qbit/src/main.rs:155-170 | h1 hits then h2 hits on the same file amount to h1 + h2 hits |
| Evidence.CreatedFromCompose | qbit/src/main.rs:157-165 | entries created by successive scans are all built from some check of the combined lists |
| Evidence.Dedup | qbit/src/main.rs:168-170 | the reference file list has no duplicates and the same members as the list of matching paths |
| Evidence.DedupPrefix | qbit/src/main.rs:168-170 | deduplication keeps first-seen order: more input only appends to the output |
| Matcher.FirstBad | qbit/src/main.rs:139-140 | finds no check exactly when every primary pattern compiles; otherwise finds the first one that does not |
| Matcher.MatchCheck | qbit/src/main.rs:140-172 | one check on one line fails exactly when its primary pattern does not compile; otherwise it appends a finding (line, id, severity, fix) exactly when the pattern matches, and records one hit exactly when a compiling safe pattern matches |
| Matcher.MatchLine | qbit/src/main.rs:139-173 | the checks of one line abort exactly when some applicable primary pattern does not compile, whether or not the line matches anything, naming the first such check |
| Matcher.MatchLines | qbit/src/main.rs:138-174 | the lines of a file abort exactly when there is a line and some applicable primary pattern does not compile, naming the first such check |
| Matcher.ScanFile | qbit/src/main.rs:136-174 | scanning a file aborts exactly when it has a line and some applicable primary pattern does not compile, naming the first such check; an empty file never aborts |
| Matcher.MatchLineSpec | qbit/src/main.rs:139-173 | one line fails exactly when some applicable pattern does not compile, naming the first such check; otherwise its findings and hits are exactly those the reference gives for the line |
| Matcher.MatchLinesSpec | qbit/src/main.rs:138-174 | the lines of a file fail exactly when there is a line and some pattern does not compile; otherwise the findings are the file reference and each id gains exactly its file hits |
| Matcher.ScanFileSpec | qbit/src/main.rs:136-174 | scanning a file from empty findings succeeds exactly when it is empty or all patterns compile; on success its findings are exactly the reference and the evidence advanced accordingly |
| Matcher.LineFindingsSpec | qbit/src/main.rs:139-153 | a finding is reported for a line exactly when an applicable check's primary pattern matches it |
| Matcher.FileFindingsSound | qbit/src/main.rs:138-153 | every finding carries a line number 1..n and a check that matched that line |
| Matcher.FileFindingsComplete | qbit/src/main.rs:138-153 | every match of every applicable check on every line is reported, with its 1-based line number |
| Matcher.FileFindingsOrdered | qbit/src/main.rs:138-153 | findings are in non-decreasing line order |
| Matcher.FindingsOfLine | qbit/src/main.rs:138-153 | the findings on line i + 1 are exactly those of line i, in catalog order |
| Matcher.FindingsOnConcat | qbit/src/main.rs:138-153 | supports `FindingsOfLine`: selecting the findings of one line distributes over concatenation |
| Matcher.FindingsOnAll | qbit/src/main.rs:138-153 | supports `FindingsOfLine`: selecting a line keeps everything when all findings are on it and nothing when none are |
| Matcher.LineHitsPositive | qbit/src/main.rs:155-156 | a line hits id exactly when some applicable check with that id has a compiling safe pattern matching it |
| Matcher.FileHitsPositive | qbit/src/main.rs:155-156 | a file hits id exactly when some line does |
| Matcher.NoSafePatternNoHits | qbit/src/main.rs:141-144 | a check with no safe pattern, or one that does not compile, never hits |
| Matcher.LineHitsOfUnique | qbit/src/main.rs:155-167 | with unique ids, a line gives a check one hit if its safe pattern matches and none otherwise |
| Matcher.FileHitsOfUnique | qbit/src/main.rs:155-167 | with unique ids, a check's hits in a file are the number of lines its safe pattern matches |
| Vulnerabilities.ResultFor | qbit/src/main.rs:192-213 | a result keeps the finding's line, id, severity and fix; it takes the file path and status; it takes title and description from the catalog lookup; it says "No" and has no safe pattern |
| Vulnerabilities.BuildResults | qbit/src/main.rs:191-214 | one result per finding, in finding order, each as above |
| Vulnerabilities.ResultsRoundTrip | qbit/src/main.rs:191-214 | projecting the results back to findings gives the findings |
| Vulnerabilities.FindingsKnown | qbit/src/main.rs:196-199 | every finding's id is in the catalog, so the unwrap never panics |
| Vulnerabilities.ResultUsesMatchedCheck | qbit/src/main.rs:196-209 | with unique ids, a result's title and description are those of the check that fired |
| Analyzer.Status | qbit/src/main.rs:176-189 | with validation off the status is "-"; otherwise it fails exactly when the service fails and is its answer otherwise |
| Analyzer.AnalyzeFolder | qbit/src/main.rs:86-218 | a successful run keeps states only for "Rust" and "Solidity-Ethereum" |
| Analyzer.ProcessFile | qbit/src/main.rs:121-214 | one iteration aborts exactly when the file has an error, and with that error; a file of no language changes nothing; otherwise only its language's state changes, and that state exists afterwards |
| Analyzer.FileError | qbit/src/main.rs:122-187 | a file of no language never aborts the run; otherwise it raises no error exactly when it is read, it is empty or every primary pattern of its language compiles, and validation is off or answers; the file is reported unreadable exactly when its read fails; a bad-pattern error needs a line and names the first applicable check, in catalog order, whose pattern does not compile; any other error names the file; a validation error comes only after a clean scan |
| Analyzer.AnalyzeFolderSpec | qbit/src/main.rs:86-218 | a successful run keeps a state for exactly the languages with a scanned file; each state lists the scanned paths in order, holds the results of each file's findings in file then line order, and keeps evidence that is well formed, built from that language's checks and exact for every id |
| Analyzer.ProcessFileKeeps | qbit/src/main.rs:121-214 | one iteration preserves that agreement between the state and the files seen so far |
| Analyzer.NothingScanned | qbit/src/main.rs:122-133 | a language none of whose files was scanned has no expected results |
| Analyzer.AnalyzeOutcome | qbit/src/main.rs:113-217 | the run succeeds exactly when no file in the sequence of per-file errors has one; otherwise it returns the first error in that sequence |
| Analyzer.NoValidationSkipsAll | qbit/src/main.rs:176-178 | with validation off every result of every language has status "-" |
| Analyzer.SkippedStatusEverywhere | qbit/src/main.rs:176-178 | with validation off every expected result has status "-" |
| Analyzer.ResultsCountFindings | qbit/src/main.rs:191-214 | when every scanned file has a status, the results number exactly the findings |
| Analyzer.RunCounts | qbit/src/main.rs:129-214 | in a successful run a language has one result per finding and one file-list entry per scanned file |
| Analyzer.ScannedPathsSpec | qbit/src/main.rs:133 | a path is listed exactly when a file with that path was scanned as the language; the list is no longer than the input |
| Analyzer.HitPathsSpec | qbit/src/main.rs:168-170 | a path is among the hit paths of an id exactly when a file with that path has a hit for it |
| Analyzer.HitsInPositive | qbit/src/main.rs:155-156 | a file has hits for an id exactly when it was scanned as the language and some line matches the safe pattern of an applicable check with that id |
| Analyzer.EvidenceOfRun | qbit/src/main.rs:155-170 | after a successful run an id's evidence lists each file once, exactly the files with a hit, and counts every hit; it exists exactly when there was one, and is keyed by its own id |
| Analyzer.HitsCountSafeLines | qbit/src/main.rs:155-167 | with unique ids, a check's occurrence count is the number of lines its safe pattern matches across its language's files |
| Analyzer.ApplicableUnique | qbit/src/main.rs:139 | filtering the catalog by language keeps ids unique |
| Analyzer.NoSafePatternNoEvidence | qbit/src/main.rs:141-156 | an id whose checks have no usable safe pattern never gets an evidence entry |
| Analyzer.NoHitsAnywhere | qbit/src/main.rs:141-156 | such an id has no hits in any file |
| Report.Assemble | qbit/src/main.rs:59-76 | checked files and issues found are the lengths of the lists shown; the overview holds each evidence entry once and only those; with validation off the model shown is "-", and otherwise it is the configured model name |
| Report.Overview | qbit/src/main.rs:62-65 | given an enumeration of the keys, the overview has one entry per key, in that order: it is as long as the map and holds exactly the map's values |
| Report.KeyCount | qbit/src/main.rs:62-65 | an enumeration of the keys is exactly as long as the map |
| Report.DistinctCount | qbit/src/main.rs:62-65 | supports `KeyCount`: a duplicate-free list has as many distinct members as it is long |
| Report.OverviewDistinct | qbit/src/main.rs:62-65 | with entries keyed by their own id, no pattern appears twice in the overview |
| Report.ReportOfRun | qbit/src/main.rs:59-76 | after a successful run a report counts exactly that language's scanned files (at least one) and findings; each overview entry counts exactly the hits of its id, which is positive |

## Left out

- Command-line parsing, environment variables and credentials (lines 16-46) are configuration outside the core. `validate_all_severities` and the credentials reach only the validation service. The model name reaches only that service and the report.
- `vulnerability_checks.rs` (the catalog contents), `gpt_validator.rs` and `report_generator.rs` are not part of this model. The catalog is an arbitrary `seq<Check>`. The validation service is reduced to its per-file answer or failure. HTML rendering and writing the report file (lines 78-80) are output only.
- The directory walk (`WalkDir`, `filter_map(|e| e.ok())`) is modelled only through its output: the sequence of entries it yields, in order. A directory whose name ends in `.rs` or `.sol` passes the filter and then fails to read; the model treats that as an unreadable entry.
- `Path` normalisation of a trailing `/` or `/.` is not modelled: the extension is taken from the text after the last `/` as given.
- `str::lines()` (splitting on `\n` and `\r\n`) is not modelled: file contents arrive as their sequence of lines.
- Regular-expression syntax and matching are an uninterpreted engine (a compile predicate and a match predicate).
- `Analyzer.ProcessFile`: the status is computed after the scan, as in the source. The validator's input (the findings and file text) is not passed to it, because its answer is an opaque per-file parameter.
- Report.Assemble: the iteration order of the evidence `HashMap` is an input, not computed, because Rust leaves it unspecified. The languages of the outer report loop are likewise handled one at a time in any order.
- The async runtime (`tokio`), `to_string_lossy` (paths are strings already) and integer widths (`usize` counts cannot realistically overflow here) are left out.
