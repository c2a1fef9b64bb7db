/** `analyze_folder`: a left fold over the discovered files into one state per language. */
module Analyzer {
  import opened Outcomes
  import opened Catalog
  import opened Paths
  import opened Evidence
  import opened Matcher
  import opened Vulnerabilities

  /** The status every result gets when validation is switched off. */
  const Skipped: string := "-"

  /** One file handed over by the directory walker: its path, its lines (`None` when reading
      it fails) and the status the external validation service answers for it (`None` when
      that call fails). */
  datatype FileEntry = FileEntry(path: string, content: Option<seq<string>>, validation: Option<string>)

  /** One language's accumulated results: the scanned files, the reported vulnerabilities, and
      the safe-pattern evidence keyed by check id. */
  datatype LanguageState = LanguageState(filesList: seq<string>, vulnerabilities: seq<VulnerabilityResult>, safePatterns: EvidenceMap)

  type Results = map<string, LanguageState>

  const EmptyState := LanguageState([], [], map[])

  /** The state of `lang`, created empty on first use (`or_insert_with`). */
  function StateOf(res: Results, lang: string): LanguageState {
    if lang in res then res[lang] else EmptyState
  }

  /** The status shared by all results of file `f` (main.rs lines 176-189). */
  function Status(f: FileEntry, noValidation: bool): (r: Result<string, ScanError>)
    ensures noValidation ==> r == Success(Skipped)
    ensures !noValidation ==> (r.Failure? <==> f.validation.None?)
    ensures !noValidation && r.Success? ==> r.value == f.validation.value
    ensures r.Failure? ==> r.error == ValidationFailed(f.path)
  {
    if noValidation then Success(Skipped)
    else
      match f.validation
      case None => Failure(ValidationFailed(f.path))
      case Some(s) => Success(s)
  }

  /** One iteration of the loop over files (main.rs lines 121-214). It aborts exactly when the file
      has an error, and with that error; a file of no language changes nothing; otherwise
      only the state of the file's language changes, and that state exists afterwards. */
  function ProcessFile(re: RegexEngine, checks: seq<Check>, noValidation: bool, res: Results, f: FileEntry): (r: Result<Results, ScanError>)
    ensures r.Failure? <==> FileError(re, checks, noValidation, f).Some?
    ensures r.Failure? ==> r.error == FileError(re, checks, noValidation, f).value
    ensures LanguageOf(f.path).None? ==> r == Success(res)
    ensures r.Success? && LanguageOf(f.path).Some? ==> r.value.Keys == res.Keys + {LanguageOf(f.path).value}
    ensures r.Success? ==> forall l :: l in res && Some(l) != LanguageOf(f.path) ==> r.value[l] == res[l]
  {
    match LanguageOf(f.path)
    case None => Success(res)
    case Some(lang) => ProcessIn(re, checks, noValidation, res, f, lang)
  }

  /** The iteration for a file of language `lang`: read it, scan it, validate it, then record
      its path and results and the new evidence in that language's state. */
  function ProcessIn(re: RegexEngine, checks: seq<Check>, noValidation: bool, res: Results, f: FileEntry, lang: string): (r: Result<Results, ScanError>)
    ensures r.Failure? <==> ErrorIn(re, Applicable(checks, lang), noValidation, f).Some?
    ensures r.Failure? ==> r.error == ErrorIn(re, Applicable(checks, lang), noValidation, f).value
    ensures r.Success? ==> r.value.Keys == res.Keys + {lang}
    ensures r.Success? ==> forall l :: l in res && l != lang ==> r.value[l] == res[l]
  {
    match f.content
    case None => Failure(Unreadable(f.path))
    case Some(lines) =>
      var st := StateOf(res, lang);
      var cs := Applicable(checks, lang);
      match ScanFile(re, cs, f.path, lines, st.safePatterns)
      case Failure(e) => Failure(e)
      case Success(scan) =>
        match Status(f, noValidation)
        case Failure(e) => Failure(e)
        case Success(status) =>
          ScanFileSpec(re, cs, f.path, lines, st.safePatterns);
          FindingsKnown(re, checks, lang, lines);
          var found := BuildResults(checks, scan.findings, f.path, status);
          Success(res[lang := LanguageState(st.filesList + [f.path], st.vulnerabilities + found, scan.evidence)])
  }

  /** `analyze_folder` over the files in discovery order; the first error aborts the run. A
      successful run keeps states for the two scanned languages only. */
  function AnalyzeFolder(re: RegexEngine, checks: seq<Check>, files: seq<FileEntry>, noValidation: bool): (r: Result<Results, ScanError>)
    ensures r.Success? ==> forall l :: l in r.value ==> l == RustLanguage || l == SolidityLanguage
    decreases |files|
  {
    if |files| == 0 then Success(map[])
    else
      match AnalyzeFolder(re, checks, files[..|files| - 1], noValidation)
      case Failure(e) => Failure(e)
      case Success(res) => ProcessFile(re, checks, noValidation, res, files[|files| - 1])
  }

  // Reference definitions: what the run should yield, stated per file.

  predicate IsScanned(f: FileEntry, lang: string) {
    LanguageOf(f.path) == Some(lang)
  }

  /** The paths of the files scanned as `lang`, in discovery order. */
  function ScannedPaths(files: seq<FileEntry>, lang: string): seq<string>
    decreases |files|
  {
    if |files| == 0 then []
    else ScannedPaths(files[..|files| - 1], lang) + (if IsScanned(files[|files| - 1], lang) then [files[|files| - 1].path] else [])
  }

  /** The safe-pattern hits for `id` in file `f`, counted against `lang`'s checks. */
  function HitsIn(re: RegexEngine, checks: seq<Check>, lang: string, id: string, f: FileEntry): nat {
    if IsScanned(f, lang) && f.content.Some? then FileHits(re, Applicable(checks, lang), id, f.content.value) else 0
  }

  /** All safe-pattern hits for `id` in the files of `lang`. */
  function TotalHits(re: RegexEngine, checks: seq<Check>, files: seq<FileEntry>, lang: string, id: string): nat
    decreases |files|
  {
    if |files| == 0 then 0
    else TotalHits(re, checks, files[..|files| - 1], lang, id) + HitsIn(re, checks, lang, id, files[|files| - 1])
  }

  /** The paths of the files of `lang` with at least one hit for `id`, in discovery order. */
  function HitPaths(re: RegexEngine, checks: seq<Check>, files: seq<FileEntry>, lang: string, id: string): seq<string>
    decreases |files|
  {
    if |files| == 0 then []
    else
      var f := files[|files| - 1];
      HitPaths(re, checks, files[..|files| - 1], lang, id) + (if HitsIn(re, checks, lang, id, f) > 0 then [f.path] else [])
  }

  /** The findings of file `f` scanned as `lang`. */
  function FindingsIn(re: RegexEngine, checks: seq<Check>, lang: string, f: FileEntry): seq<Finding> {
    if IsScanned(f, lang) && f.content.Some? then FileFindings(re, Applicable(checks, lang), f.content.value) else []
  }

  /** The results file `f` contributes to `lang`. */
  ghost function ResultsIn(re: RegexEngine, checks: seq<Check>, noValidation: bool, lang: string, f: FileEntry): seq<VulnerabilityResult> {
    match Status(f, noValidation)
    case Failure(_) => []
    case Success(status) =>
      if IsScanned(f, lang) && f.content.Some? then
        FindingsKnown(re, checks, lang, f.content.value);
        BuildResults(checks, FindingsIn(re, checks, lang, f), f.path, status)
      else []
  }

  /** The results of all files of `lang`, in discovery order. */
  ghost function ExpectedResults(re: RegexEngine, checks: seq<Check>, files: seq<FileEntry>, noValidation: bool, lang: string): seq<VulnerabilityResult>
    decreases |files|
  {
    if |files| == 0 then []
    else ExpectedResults(re, checks, files[..|files| - 1], noValidation, lang) + ResultsIn(re, checks, noValidation, lang, files[|files| - 1])
  }

  /** The evidence for `id` is what the files of `lang` dictate: exactly their hit count, and
      the files with a hit, each once, in first-seen order. */
  ghost predicate EvidenceOk(re: RegexEngine, checks: seq<Check>, files: seq<FileEntry>, lang: string, ev: EvidenceMap, id: string) {
    && (id in ev <==> TotalHits(re, checks, files, lang, id) > 0)
    && Occurrences(ev, id) == TotalHits(re, checks, files, lang, id)
    && FilesOf(ev, id) == Dedup(HitPaths(re, checks, files, lang, id))
  }

  /** `st` is the state the files dictate for `lang`. */
  ghost predicate StateOk(re: RegexEngine, checks: seq<Check>, files: seq<FileEntry>, noValidation: bool, lang: string, st: LanguageState) {
    && st.filesList == ScannedPaths(files, lang)
    && st.vulnerabilities == ExpectedResults(re, checks, files, noValidation, lang)
    && WellFormed(st.safePatterns)
    && CreatedFrom(map[], st.safePatterns, Applicable(checks, lang))
    && forall id :: EvidenceOk(re, checks, files, lang, st.safePatterns, id)
  }

  /** `res` holds a state for exactly the languages of the scanned files, each as dictated. */
  ghost predicate Summarises(re: RegexEngine, checks: seq<Check>, files: seq<FileEntry>, noValidation: bool, res: Results) {
    && (forall lang :: lang in res <==> ScannedPaths(files, lang) != [])
    && (forall lang :: lang in res ==> StateOk(re, checks, files, noValidation, lang, res[lang]))
  }

  // The fold computes the reference.

  /** The file list of `files + [f]` is that of `files` plus `f`'s path when it is scanned. */
  lemma UnfoldPaths(files: seq<FileEntry>, f: FileEntry, lang: string)
    ensures ScannedPaths(files + [f], lang) == ScannedPaths(files, lang) + (if IsScanned(f, lang) then [f.path] else [])
  {
    assert (files + [f])[..|files|] == files;
  }

  /** The results of `files + [f]` are those of `files` followed by `f`'s. */
  lemma UnfoldResults(re: RegexEngine, checks: seq<Check>, files: seq<FileEntry>, noValidation: bool, f: FileEntry, lang: string)
    ensures ExpectedResults(re, checks, files + [f], noValidation, lang) ==
      ExpectedResults(re, checks, files, noValidation, lang) + ResultsIn(re, checks, noValidation, lang, f)
  {
    assert (files + [f])[..|files|] == files;
  }

  /** The hits and hit paths of `files + [f]` are those of `files` plus `f`'s. */
  lemma UnfoldHits(re: RegexEngine, checks: seq<Check>, files: seq<FileEntry>, f: FileEntry, lang: string, id: string)
    ensures TotalHits(re, checks, files + [f], lang, id) == TotalHits(re, checks, files, lang, id) + HitsIn(re, checks, lang, id, f)
    ensures HitPaths(re, checks, files + [f], lang, id) ==
      HitPaths(re, checks, files, lang, id) + (if HitsIn(re, checks, lang, id, f) > 0 then [f.path] else [])
  {
    assert (files + [f])[..|files|] == files;
  }

  /** A language none of whose files was scanned has no results. */
  lemma {:induction false} NothingScanned(re: RegexEngine, checks: seq<Check>, files: seq<FileEntry>, noValidation: bool, lang: string)
    requires ScannedPaths(files, lang) == []
    ensures ExpectedResults(re, checks, files, noValidation, lang) == []
    decreases |files|
  {
    if |files| > 0 {
      var p := files[..|files| - 1];
      assert ScannedPaths(p, lang) == [] && !IsScanned(files[|files| - 1], lang) by {
        assert |ScannedPaths(files, lang)| >= |ScannedPaths(p, lang)|;
      }
      NothingScanned(re, checks, p, noValidation, lang);
    }
  }

  /** ... and no safe-pattern hits for any id. */
  lemma {:induction false} NothingScannedHits(re: RegexEngine, checks: seq<Check>, files: seq<FileEntry>, lang: string, id: string)
    requires ScannedPaths(files, lang) == []
    ensures TotalHits(re, checks, files, lang, id) == 0 && HitPaths(re, checks, files, lang, id) == []
    decreases |files|
  {
    if |files| > 0 {
      var p := files[..|files| - 1];
      assert ScannedPaths(p, lang) == [] && !IsScanned(files[|files| - 1], lang) by {
        assert |ScannedPaths(files, lang)| >= |ScannedPaths(p, lang)|;
      }
      NothingScannedHits(re, checks, p, lang, id);
    }
  }

  /** A file of another language leaves a language's state as dictated. */
  lemma StateOkOther(re: RegexEngine, checks: seq<Check>, files: seq<FileEntry>, noValidation: bool, f: FileEntry, lang: string, st: LanguageState)
    requires !IsScanned(f, lang)
    requires StateOk(re, checks, files, noValidation, lang, st)
    ensures StateOk(re, checks, files + [f], noValidation, lang, st)
  {
    UnfoldPaths(files, f, lang);
    assert ScannedPaths(files + [f], lang) == ScannedPaths(files, lang);
    UnfoldResults(re, checks, files, noValidation, f, lang);
    assert ResultsIn(re, checks, noValidation, lang, f) == [];
    assert ExpectedResults(re, checks, files + [f], noValidation, lang) == ExpectedResults(re, checks, files, noValidation, lang);
    forall id ensures EvidenceOk(re, checks, files + [f], lang, st.safePatterns, id) {
      assert EvidenceOk(re, checks, files, lang, st.safePatterns, id);
      UnfoldHits(re, checks, files, f, lang, id);
      assert HitsIn(re, checks, lang, id, f) == 0;
      assert HitPaths(re, checks, files + [f], lang, id) == HitPaths(re, checks, files, lang, id);
    }
  }

  /** Scanning one more file of `lang` moves the evidence for `id` to what the longer file list dictates. */
  lemma EvidenceStep(re: RegexEngine, checks: seq<Check>, files: seq<FileEntry>, f: FileEntry, lang: string, ev: EvidenceMap, ev': EvidenceMap, id: string)
    requires EvidenceOk(re, checks, files, lang, ev, id)
    requires Advanced(ev, ev', f.path, id, HitsIn(re, checks, lang, id, f))
    ensures EvidenceOk(re, checks, files + [f], lang, ev', id)
  {
    UnfoldHits(re, checks, files, f, lang, id);
    var h := HitsIn(re, checks, lang, id, f);
    var hp := HitPaths(re, checks, files, lang, id);
    if h > 0 {
      DedupSnoc(hp, f.path);
    } else {
      assert hp + [] == hp;
    }
  }

  lemma DedupSnoc(s: seq<string>, x: string)
    ensures Dedup(s + [x]) == Dedup(s) + (if x in Dedup(s) then [] else [x])
  {
    assert (s + [x])[..|s|] == s;
  }

  /** Scanning one more file of `lang` moves `lang`'s state to what the longer file list dictates. */
  lemma StateOkSame(re: RegexEngine, checks: seq<Check>, files: seq<FileEntry>, noValidation: bool, f: FileEntry, lang: string,
                    st: LanguageState, scan: FileScan, status: string)
    requires IsScanned(f, lang) && f.content.Some?
    requires StateOk(re, checks, files, noValidation, lang, st)
    requires ScanFile(re, Applicable(checks, lang), f.path, f.content.value, st.safePatterns) == Success(scan)
    requires Status(f, noValidation) == Success(status)
    ensures Known(checks, scan.findings)
    ensures StateOk(re, checks, files + [f], noValidation, lang,
      LanguageState(st.filesList + [f.path], st.vulnerabilities + BuildResults(checks, scan.findings, f.path, status), scan.evidence))
  {
    var cs := Applicable(checks, lang);
    var lines := f.content.value;
    ScanFileSpec(re, cs, f.path, lines, st.safePatterns);
    assert scan.findings == FindingsIn(re, checks, lang, f);
    FindingsKnown(re, checks, lang, lines);
    UnfoldPaths(files, f, lang);
    UnfoldResults(re, checks, files, noValidation, f, lang);
    forall id ensures EvidenceOk(re, checks, files + [f], lang, scan.evidence, id) {
      assert Advanced(st.safePatterns, scan.evidence, f.path, id, FileHits(re, cs, id, lines));
      EvidenceStep(re, checks, files, f, lang, st.safePatterns, scan.evidence, id);
    }
    CreatedFromCompose(map[], st.safePatterns, scan.evidence, cs, cs, cs);
  }

  /** One step of the fold keeps the result summarising the files seen so far. */
  lemma ProcessFileKeeps(re: RegexEngine, checks: seq<Check>, noValidation: bool, files: seq<FileEntry>, res: Results, f: FileEntry)
    requires Summarises(re, checks, files, noValidation, res)
    requires ProcessFile(re, checks, noValidation, res, f).Success?
    ensures Summarises(re, checks, files + [f], noValidation, ProcessFile(re, checks, noValidation, res, f).value)
  {
    match LanguageOf(f.path)
    case None =>
      SkippedFileKeeps(re, checks, noValidation, files, res, f);
    case Some(l) =>
      var lines := f.content.value;
      var st := StateOf(res, l);
      var scan := ScanFile(re, Applicable(checks, l), f.path, lines, st.safePatterns).value;
      var status := Status(f, noValidation).value;
      ScanFileSpec(re, Applicable(checks, l), f.path, lines, st.safePatterns);
      FindingsKnown(re, checks, l, lines);
      var st' := LanguageState(st.filesList + [f.path], st.vulnerabilities + BuildResults(checks, scan.findings, f.path, status), scan.evidence);
      assert ProcessFile(re, checks, noValidation, res, f).value == res[l := st'];
      ScannedFileKeeps(re, checks, noValidation, files, res, f, l, scan, status, st');
  }

  /** A file that is not scanned changes nothing. */
  lemma SkippedFileKeeps(re: RegexEngine, checks: seq<Check>, noValidation: bool, files: seq<FileEntry>, res: Results, f: FileEntry)
    requires Summarises(re, checks, files, noValidation, res)
    requires LanguageOf(f.path).None?
    ensures Summarises(re, checks, files + [f], noValidation, res)
  {
    forall lang ensures lang in res <==> ScannedPaths(files + [f], lang) != [] {
      UnfoldPaths(files, f, lang);
    }
    forall lang | lang in res ensures StateOk(re, checks, files + [f], noValidation, lang, res[lang]) {
      StateOkOther(re, checks, files, noValidation, f, lang, res[lang]);
    }
  }

  /** A file scanned as `l` updates `l`'s state as dictated and leaves the other languages alone. */
  lemma ScannedFileKeeps(re: RegexEngine, checks: seq<Check>, noValidation: bool, files: seq<FileEntry>, res: Results, f: FileEntry,
                         l: string, scan: FileScan, status: string, st': LanguageState)
    requires Summarises(re, checks, files, noValidation, res)
    requires IsScanned(f, l) && f.content.Some?
    requires ScanFile(re, Applicable(checks, l), f.path, f.content.value, StateOf(res, l).safePatterns) == Success(scan)
    requires Status(f, noValidation) == Success(status)
    requires Known(checks, scan.findings)
    requires st' == LanguageState(StateOf(res, l).filesList + [f.path],
      StateOf(res, l).vulnerabilities + BuildResults(checks, scan.findings, f.path, status), scan.evidence)
    ensures Summarises(re, checks, files + [f], noValidation, res[l := st'])
  {
    var st := StateOf(res, l);
    StartState(re, checks, files, noValidation, res, l);
    StateOkSame(re, checks, files, noValidation, f, l, st, scan, status);
    var res' := res[l := st'];
    KeysAfterScan(files, f, l, res, st', res');
    OthersAfterScan(re, checks, files, noValidation, f, l, res, st', res');
    SummarisesIntro(re, checks, files + [f], noValidation, res');
  }

  /** The state a language's next file starts from is the one its earlier files dictate. */
  lemma StartState(re: RegexEngine, checks: seq<Check>, files: seq<FileEntry>, noValidation: bool, res: Results, l: string)
    requires Summarises(re, checks, files, noValidation, res)
    ensures StateOk(re, checks, files, noValidation, l, StateOf(res, l))
  {
    if l !in res {
      NothingScanned(re, checks, files, noValidation, l);
      forall id ensures EvidenceOk(re, checks, files, l, map[], id) {
        NothingScannedHits(re, checks, files, l, id);
      }
    }
  }

  lemma KeysAfterScan(files: seq<FileEntry>, f: FileEntry, l: string, res: Results, st': LanguageState, res': Results)
    requires IsScanned(f, l) && res' == res[l := st']
    requires forall lang :: lang in res <==> ScannedPaths(files, lang) != []
    ensures forall lang :: lang in res' <==> ScannedPaths(files + [f], lang) != []
  {
    forall lang ensures lang in res' <==> ScannedPaths(files + [f], lang) != [] {
      UnfoldPaths(files, f, lang);
    }
  }

  lemma OthersAfterScan(re: RegexEngine, checks: seq<Check>, files: seq<FileEntry>, noValidation: bool, f: FileEntry, l: string,
                        res: Results, st': LanguageState, res': Results)
    requires IsScanned(f, l) && res' == res[l := st']
    requires forall lang :: lang in res ==> StateOk(re, checks, files, noValidation, lang, res[lang])
    requires StateOk(re, checks, files + [f], noValidation, l, st')
    ensures forall lang :: lang in res' ==> StateOk(re, checks, files + [f], noValidation, lang, res'[lang])
  {
    forall lang | lang in res' ensures StateOk(re, checks, files + [f], noValidation, lang, res'[lang]) {
      if lang != l {
        StateOkOther(re, checks, files, noValidation, f, lang, res[lang]);
      }
    }
  }

  lemma SummarisesIntro(re: RegexEngine, checks: seq<Check>, files: seq<FileEntry>, noValidation: bool, res: Results)
    requires forall lang :: lang in res <==> ScannedPaths(files, lang) != []
    requires forall lang :: lang in res ==> StateOk(re, checks, files, noValidation, lang, res[lang])
    ensures Summarises(re, checks, files, noValidation, res)
  {
  }

  /** `ProcessFileKeeps` for the last file `f` of `files`: a restatement over `p + [f] == files`
      that keeps the fold's proof small for the solver. */
  lemma LastFileKeeps(re: RegexEngine, checks: seq<Check>, noValidation: bool, files: seq<FileEntry>, p: seq<FileEntry>, f: FileEntry, res: Results)
    requires p + [f] == files
    requires Summarises(re, checks, p, noValidation, res)
    requires ProcessFile(re, checks, noValidation, res, f).Success?
    ensures Summarises(re, checks, files, noValidation, ProcessFile(re, checks, noValidation, res, f).value)
  {
    ProcessFileKeeps(re, checks, noValidation, p, res, f);
  }

  /** A non-empty sequence is its prefix followed by its last element (a solver aid: the split
      is proved once here rather than inside the fold's proof). */
  lemma SplitLast<T>(s: seq<T>) returns (p: seq<T>, x: T)
    requires |s| > 0
    ensures p == s[..|s| - 1] && x == s[|s| - 1] && p + [x] == s
  {
    p, x := s[..|s| - 1], s[|s| - 1];
  }

  /** A successful run holds a state for exactly the languages of the scanned files, and each
      state is the one its files dictate. */
  lemma {:induction false} AnalyzeFolderSpec(re: RegexEngine, checks: seq<Check>, files: seq<FileEntry>, noValidation: bool)
    requires AnalyzeFolder(re, checks, files, noValidation).Success?
    ensures Summarises(re, checks, files, noValidation, AnalyzeFolder(re, checks, files, noValidation).value)
    decreases |files|
  {
    if |files| > 0 {
      var p, f := SplitLast(files);
      AnalyzeFolderSpec(re, checks, p, noValidation);
      LastFileKeeps(re, checks, noValidation, files, p, f, AnalyzeFolder(re, checks, p, noValidation).value);
    }
  }

  // When the run aborts.

  /** Why file `f` would abort the run, checked in the order of the loop body: reading it, then
      compiling the primary patterns of its language's checks (only when it has a line, and
      the first bad one is reported), then validating its findings. A file of no language
      never aborts it. */
  function FileError(re: RegexEngine, checks: seq<Check>, noValidation: bool, f: FileEntry): (r: Option<ScanError>)
    ensures r.None? <==> LanguageOf(f.path).None? || ScanErrorFree(re, Applicable(checks, LanguageOf(f.path).value), noValidation, f)
    ensures r.Some? && r.value.BadPattern? ==>
      && LanguageOf(f.path).Some? && f.content.Some? && |f.content.value| > 0
      && exists c :: c in Applicable(checks, LanguageOf(f.path).value) && !re.compiles(c.pattern) && r.value == BadPatternOf(c)
    ensures r.Some? && !r.value.BadPattern? ==> r.value == Unreadable(f.path) || r.value == ValidationFailed(f.path)
    ensures r.Some? && r.value.ValidationFailed? ==> f.content.Some? && (|f.content.value| == 0 || AllCompile(re, Applicable(checks, LanguageOf(f.path).value)))
    ensures LanguageOf(f.path).Some? ==> (r == Some(Unreadable(f.path)) <==> f.content.None?)
    ensures r.Some? && r.value.BadPattern? ==> r.value == BadPatternOf(FirstBad(re, Applicable(checks, LanguageOf(f.path).value)).value)
  {
    match LanguageOf(f.path)
    case None => None
    case Some(lang) => ErrorIn(re, Applicable(checks, lang), noValidation, f)
  }

  /** A file checked against the checks `cs` raises no error: it is read, it is empty or all
      primary patterns compile, and validation is off or answers. */
  predicate ScanErrorFree(re: RegexEngine, cs: seq<Check>, noValidation: bool, f: FileEntry) {
    f.content.Some? && (|f.content.value| == 0 || AllCompile(re, cs)) && (noValidation || f.validation.Some?)
  }

  /** The error of a file whose language's checks are `cs`. */
  function ErrorIn(re: RegexEngine, cs: seq<Check>, noValidation: bool, f: FileEntry): (r: Option<ScanError>)
    ensures r.None? <==> ScanErrorFree(re, cs, noValidation, f)
    ensures r.Some? && r.value.BadPattern? ==>
      && f.content.Some? && |f.content.value| > 0
      && exists c :: c in cs && !re.compiles(c.pattern) && r.value == BadPatternOf(c)
    ensures r.Some? && !r.value.BadPattern? ==> r.value == Unreadable(f.path) || r.value == ValidationFailed(f.path)
    ensures r.Some? && r.value.ValidationFailed? ==> f.content.Some? && (|f.content.value| == 0 || AllCompile(re, cs))
    ensures r == Some(Unreadable(f.path)) <==> f.content.None?
    ensures r.Some? && r.value.BadPattern? ==> r.value == BadPatternOf(FirstBad(re, cs).value)
  {
    match f.content
    case None => Some(Unreadable(f.path))
    case Some(lines) =>
      var bad := FirstBad(re, cs);
      if |lines| > 0 && bad.Some? then
        var j :| 0 <= j < |cs| && cs[j] == bad.value && !re.compiles(bad.value.pattern) && AllCompile(re, cs[..j]);
        assert cs[j] in cs;
        Some(BadPatternOf(bad.value))
      else if !noValidation && f.validation.None? then Some(ValidationFailed(f.path))
      else None
  }

  /** The error each file would raise, in discovery order. */
  function Errors(re: RegexEngine, checks: seq<Check>, noValidation: bool, files: seq<FileEntry>): (r: seq<Option<ScanError>>)
    ensures |r| == |files|
    ensures forall k :: 0 <= k < |files| ==> r[k] == FileError(re, checks, noValidation, files[k])
  {
    Each(ErrorOf(re, checks, noValidation), files)
  }

  function ErrorOf(re: RegexEngine, checks: seq<Check>, noValidation: bool): FileEntry -> Option<ScanError> {
    f => FileError(re, checks, noValidation, f)
  }

  /** `g` applied to each element of `s`. */
  function Each<A, B>(g: A -> B, s: seq<A>): (r: seq<B>)
    ensures |r| == |s| && forall k :: 0 <= k < |s| ==> r[k] == g(s[k])
  {
    seq(|s|, k requires 0 <= k < |s| => g(s[k]))
  }

  /** One more element adds its image at the end. */
  lemma EachSnoc<A, B>(g: A -> B, s: seq<A>, p: seq<A>)
    requires |s| > 0 && p == s[..|s| - 1]
    ensures Each(g, s) == Each(g, p) + [g(s[|s| - 1])]
  {
    assert forall k :: 0 <= k < |p| ==> p[k] == s[k];
  }

  predicate NoError(errs: seq<Option<ScanError>>) {
    forall k :: 0 <= k < |errs| ==> errs[k].None?
  }

  /** `e` is the first error in `errs`. */
  predicate FirstError(errs: seq<Option<ScanError>>, e: ScanError) {
    exists k :: 0 <= k < |errs| && errs[k] == Some(e) && forall j :: 0 <= j < k ==> errs[j].None?
  }

  /** A run succeeds exactly when no file has an error; otherwise it reports the error of the
      first file with one, and none of the state built so far is kept. */
  lemma {:induction false} AnalyzeOutcome(re: RegexEngine, checks: seq<Check>, files: seq<FileEntry>, noValidation: bool)
    ensures AnalyzeFolder(re, checks, files, noValidation).Success? <==> NoError(Errors(re, checks, noValidation, files))
    ensures AnalyzeFolder(re, checks, files, noValidation).Failure? ==>
      FirstError(Errors(re, checks, noValidation, files), AnalyzeFolder(re, checks, files, noValidation).error)
    decreases |files|
  {
    if |files| > 0 {
      var p := files[..|files| - 1];
      var last := files[|files| - 1];
      AnalyzeOutcome(re, checks, p, noValidation);
      var x := FileError(re, checks, noValidation, last);
      EachSnoc(ErrorOf(re, checks, noValidation), files, p);
      match AnalyzeFolder(re, checks, p, noValidation)
      case Failure(e) => FirstErrorExtends(Errors(re, checks, noValidation, p), x, e);
      case Success(res) =>
        NoErrorExtends(Errors(re, checks, noValidation, p), x);
    }
  }

  /** An error stays the first one whatever follows it. */
  lemma FirstErrorExtends(errs: seq<Option<ScanError>>, x: Option<ScanError>, e: ScanError)
    requires FirstError(errs, e)
    ensures FirstError(errs + [x], e) && !NoError(errs + [x])
  {
    var k :| 0 <= k < |errs| && errs[k] == Some(e) && forall j :: 0 <= j < k ==> errs[j].None?;
    assert (errs + [x])[k] == Some(e);
    assert forall j :: 0 <= j < k ==> (errs + [x])[j] == errs[j];
  }

  /** After a clean prefix, the next entry decides. */
  lemma NoErrorExtends(errs: seq<Option<ScanError>>, x: Option<ScanError>)
    requires NoError(errs)
    ensures NoError(errs + [x]) <==> x.None?
    ensures x.Some? ==> FirstError(errs + [x], x.value)
  {
    assert (errs + [x])[|errs|] == x;
    assert forall j :: 0 <= j < |errs| ==> (errs + [x])[j] == errs[j];
  }

  // Consequences for the caller.

  /** With validation switched off, every result carries the skipped status. */
  lemma {:induction false} SkippedStatusEverywhere(re: RegexEngine, checks: seq<Check>, files: seq<FileEntry>, lang: string)
    ensures forall v :: v in ExpectedResults(re, checks, files, true, lang) ==> v.status == Skipped
    decreases |files|
  {
    if |files| > 0 {
      SkippedStatusEverywhere(re, checks, files[..|files| - 1], lang);
    }
  }

  /** A run with `no_validation` set stamps every result of every language with "-". */
  lemma NoValidationSkipsAll(re: RegexEngine, checks: seq<Check>, files: seq<FileEntry>, lang: string)
    requires AnalyzeFolder(re, checks, files, true).Success?
    requires lang in AnalyzeFolder(re, checks, files, true).value
    ensures forall v :: v in AnalyzeFolder(re, checks, files, true).value[lang].vulnerabilities ==> v.status == Skipped
  {
    AnalyzeFolderSpec(re, checks, files, true);
    SkippedStatusEverywhere(re, checks, files, lang);
  }

  /** The number of findings in the files of `lang`. */
  function TotalFindings(re: RegexEngine, checks: seq<Check>, files: seq<FileEntry>, lang: string): nat
    decreases |files|
  {
    if |files| == 0 then 0
    else TotalFindings(re, checks, files[..|files| - 1], lang) + |FindingsIn(re, checks, lang, files[|files| - 1])|
  }

  /** One result per finding: when every file of `lang` gets a status, the results number
      exactly the findings. */
  lemma {:induction false} ResultsCountFindings(re: RegexEngine, checks: seq<Check>, files: seq<FileEntry>, noValidation: bool, lang: string)
    requires forall k :: 0 <= k < |files| && IsScanned(files[k], lang) ==> Status(files[k], noValidation).Success?
    ensures |ExpectedResults(re, checks, files, noValidation, lang)| == TotalFindings(re, checks, files, lang)
    decreases |files|
  {
    if |files| > 0 {
      var p := files[..|files| - 1];
      assert forall k :: 0 <= k < |p| ==> p[k] == files[k];
      ResultsCountFindings(re, checks, p, noValidation, lang);
    }
  }

  /** In a successful run, the results of `lang` number exactly its findings and its file list
      has exactly one entry per scanned file of that language. */
  lemma RunCounts(re: RegexEngine, checks: seq<Check>, files: seq<FileEntry>, noValidation: bool, lang: string)
    requires AnalyzeFolder(re, checks, files, noValidation).Success?
    requires lang in AnalyzeFolder(re, checks, files, noValidation).value
    ensures |AnalyzeFolder(re, checks, files, noValidation).value[lang].vulnerabilities| == TotalFindings(re, checks, files, lang)
    ensures |AnalyzeFolder(re, checks, files, noValidation).value[lang].filesList| == |ScannedPaths(files, lang)|
  {
    AnalyzeFolderSpec(re, checks, files, noValidation);
    AnalyzeOutcome(re, checks, files, noValidation);
    CleanFilesHaveStatus(re, checks, files, noValidation, lang);
    ResultsCountFindings(re, checks, files, noValidation, lang);
  }

  lemma CleanFilesHaveStatus(re: RegexEngine, checks: seq<Check>, files: seq<FileEntry>, noValidation: bool, lang: string)
    requires NoError(Errors(re, checks, noValidation, files))
    ensures forall k :: 0 <= k < |files| && IsScanned(files[k], lang) ==> Status(files[k], noValidation).Success?
  {
    var errs := Errors(re, checks, noValidation, files);
    forall k | 0 <= k < |files| && IsScanned(files[k], lang) ensures Status(files[k], noValidation).Success? {
      assert errs[k].None?;
      CleanFileHasStatus(re, checks, noValidation, files[k], lang);
    }
  }

  /** A scanned file without an error got its status. */
  lemma CleanFileHasStatus(re: RegexEngine, checks: seq<Check>, noValidation: bool, f: FileEntry, lang: string)
    requires FileError(re, checks, noValidation, f).None? && IsScanned(f, lang)
    ensures Status(f, noValidation).Success?
  {
  }

  /** Every scanned file appears in its language's file list, once per time the walker yields it,
      and nothing else does. */
  lemma {:induction false} ScannedPathsSpec(files: seq<FileEntry>, lang: string)
    ensures forall p :: p in ScannedPaths(files, lang) <==> exists f :: f in files && f.path == p && IsScanned(f, lang)
    ensures |ScannedPaths(files, lang)| <= |files|
    decreases |files|
  {
    if |files| > 0 {
      var q := files[..|files| - 1];
      assert files == q + [files[|files| - 1]];
      ScannedPathsSpec(q, lang);
    }
  }

  /** A file's path is listed in the evidence of `id` exactly when that file was scanned as
      `lang` and one of its lines matched a safe pattern of a check carrying `id`. */
  lemma {:induction false} HitPathsSpec(re: RegexEngine, checks: seq<Check>, files: seq<FileEntry>, lang: string, id: string)
    ensures forall p :: p in HitPaths(re, checks, files, lang, id) <==>
      exists f :: f in files && f.path == p && HitsIn(re, checks, lang, id, f) > 0
    decreases |files|
  {
    if |files| > 0 {
      var q := files[..|files| - 1];
      assert forall f :: f in files <==> f in q || f == files[|files| - 1] by {
        assert files == q + [files[|files| - 1]];
      }
      HitPathsSpec(re, checks, q, lang, id);
    }
  }

  /** `HitsIn` is positive exactly when some line of the file is safely matched by a check of `lang` carrying `id`. */
  lemma HitsInPositive(re: RegexEngine, checks: seq<Check>, lang: string, id: string, f: FileEntry)
    ensures HitsIn(re, checks, lang, id, f) > 0 <==>
      IsScanned(f, lang) && f.content.Some? &&
      exists i, c :: 0 <= i < |f.content.value| && c in Applicable(checks, lang) && c.id == id && SafeFires(re, c, f.content.value[i])
  {
    if IsScanned(f, lang) && f.content.Some? {
      FileHitsPositive(re, Applicable(checks, lang), id, f.content.value);
    }
  }

  /** In a successful run, the evidence of `id` for `lang` lists each file once, in the order
      first seen, and lists exactly the files with a safe-pattern match for `id`; its count is
      the exact number of hits and an entry exists exactly when that number is positive. */
  lemma EvidenceOfRun(re: RegexEngine, checks: seq<Check>, files: seq<FileEntry>, noValidation: bool, lang: string, id: string)
    requires AnalyzeFolder(re, checks, files, noValidation).Success?
    requires lang in AnalyzeFolder(re, checks, files, noValidation).value
    ensures var ev := AnalyzeFolder(re, checks, files, noValidation).value[lang].safePatterns;
      && NoDuplicates(FilesOf(ev, id))
      && (forall p :: p in FilesOf(ev, id) <==> exists f :: f in files && f.path == p && HitsIn(re, checks, lang, id, f) > 0)
      && Occurrences(ev, id) == TotalHits(re, checks, files, lang, id)
      && (id in ev <==> TotalHits(re, checks, files, lang, id) > 0)
      && (id in ev ==> ev[id].patternId == id)
  {
    AnalyzeFolderSpec(re, checks, files, noValidation);
    var ev := AnalyzeFolder(re, checks, files, noValidation).value[lang].safePatterns;
    assert EvidenceOk(re, checks, files, lang, ev, id);
    HitPathsSpec(re, checks, files, lang, id);
  }

  /** The safe-pattern matches of one check over the files of `lang`. */
  function TotalSafeLines(re: RegexEngine, files: seq<FileEntry>, lang: string, c: Check): nat
    decreases |files|
  {
    if |files| == 0 then 0
    else
      var f := files[|files| - 1];
      TotalSafeLines(re, files[..|files| - 1], lang, c) + (if IsScanned(f, lang) && f.content.Some? then SafeLines(re, c, f.content.value) else 0)
  }

  /** With unique catalog ids, a check's occurrence count is exactly the number of lines of its
      language's files that its safe pattern matches. */
  lemma {:induction false} HitsCountSafeLines(re: RegexEngine, checks: seq<Check>, files: seq<FileEntry>, c: Check)
    requires UniqueIds(checks) && c in checks
    ensures TotalHits(re, checks, files, c.language, c.id) == TotalSafeLines(re, files, c.language, c)
    decreases |files|
  {
    if |files| > 0 {
      var f := files[|files| - 1];
      HitsCountSafeLines(re, checks, files[..|files| - 1], c);
      if IsScanned(f, c.language) && f.content.Some? {
        ApplicableUnique(checks, c.language);
        FileHitsOfUnique(re, Applicable(checks, c.language), c, f.content.value);
      }
    }
  }

  /** Filtering the catalog keeps ids unique. */
  lemma {:induction false} ApplicableUnique(checks: seq<Check>, lang: string)
    requires UniqueIds(checks)
    ensures UniqueIds(Applicable(checks, lang))
    decreases |checks|
  {
    if |checks| > 0 {
      UniqueTail(checks);
      ApplicableUnique(checks[1..], lang);
      if checks[0].language == lang {
        UniqueCons(checks[0], Applicable(checks[1..], lang));
      }
    }
  }

  /** The checks after the first keep unique ids, none of them the first one's. */
  lemma UniqueTail(checks: seq<Check>)
    requires |checks| > 0 && UniqueIds(checks)
    ensures UniqueIds(checks[1..])
    ensures forall d :: d in checks[1..] ==> d.id != checks[0].id
  {
    var rest := checks[1..];
    forall i, j | 0 <= i < |rest| && 0 <= j < |rest| && rest[i].id == rest[j].id ensures i == j {
      assert checks[i + 1] == rest[i] && checks[j + 1] == rest[j];
    }
    forall d | d in rest ensures d.id != checks[0].id {
      var k :| 0 <= k < |rest| && rest[k] == d;
      assert checks[k + 1] == d;
    }
  }

  /** A check whose id no later check carries can head a list with unique ids. */
  lemma UniqueCons(c: Check, tail: seq<Check>)
    requires UniqueIds(tail) && forall d :: d in tail ==> d.id != c.id
    ensures UniqueIds([c] + tail)
  {
    var r := [c] + tail;
    assert forall k :: 1 <= k < |r| ==> r[k] == tail[k - 1];
    assert forall k :: 1 <= k < |r| ==> r[k].id != r[0].id;
  }

  /** A check without a usable safe pattern never gets evidence: if every check carrying `id`
      lacks a safe pattern or has one that does not compile, no run records `id`. */
  lemma NoSafePatternNoEvidence(re: RegexEngine, checks: seq<Check>, files: seq<FileEntry>, noValidation: bool, lang: string, id: string)
    requires forall c :: c in checks && c.id == id ==> c.safePattern.None? || !re.compiles(c.safePattern.value)
    requires AnalyzeFolder(re, checks, files, noValidation).Success?
    requires lang in AnalyzeFolder(re, checks, files, noValidation).value
    ensures id !in AnalyzeFolder(re, checks, files, noValidation).value[lang].safePatterns
  {
    EvidenceOfRun(re, checks, files, noValidation, lang, id);
    NoHitsAnywhere(re, checks, files, lang, id);
  }

  lemma {:induction false} NoHitsAnywhere(re: RegexEngine, checks: seq<Check>, files: seq<FileEntry>, lang: string, id: string)
    requires forall c :: c in checks && c.id == id ==> c.safePattern.None? || !re.compiles(c.safePattern.value)
    ensures TotalHits(re, checks, files, lang, id) == 0
    decreases |files|
  {
    if |files| > 0 {
      var f := files[|files| - 1];
      NoHitsAnywhere(re, checks, files[..|files| - 1], lang, id);
      if IsScanned(f, lang) && f.content.Some? {
        NoSafePatternNoHits(re, Applicable(checks, lang), id, f.content.value);
      }
    }
  }
}
