/** The per-language report assembled from a finished run (qbit/src/main.rs, lines 59-76):
    the summary counts, the results in scan order, the evidence entries in map iteration
    order, and the model name or "-" when validation was skipped. The HTML rendering and the
    file write are not modelled. */
module Report {
  import opened Catalog
  import opened Matcher
  import opened Evidence
  import opened Vulnerabilities
  import opened Analyzer

  datatype SecurityAnalysisSummary = SecurityAnalysisSummary(checkedFiles: nat, filesList: seq<string>, securityIssuesFound: nat)

  datatype FinalReport = FinalReport(
    summary: SecurityAnalysisSummary,
    vulnerabilitiesDetails: seq<VulnerabilityResult>,
    safePatternsOverview: seq<SafePatternDetail>,
    model: string)

  /** `order` enumerates the keys of `ev`, each exactly once: the iteration order of the map,
      which the model leaves open. */
  predicate Enumerates(order: seq<string>, ev: EvidenceMap) {
    NoDuplicates(order) && (forall id :: id in order ==> id in ev) && (forall id :: id in ev ==> id in order)
  }

  /** The evidence entries, in the given order of their keys: one entry per key, so the
      overview holds every value of the map and nothing else. */
  function Overview(ev: EvidenceMap, order: seq<string>): (r: seq<SafePatternDetail>)
    requires Enumerates(order, ev)
    ensures |r| == |order| == |ev|
    ensures forall d :: d in r <==> exists id :: id in ev && ev[id] == d
    ensures forall k :: 0 <= k < |order| ==> r[k] == ev[order[k]]
  {
    KeyCount(order, ev);
    var r := Values(ev, order);
    assert forall id :: id in ev ==> ev[id] in r by {
      forall id | id in ev ensures ev[id] in r {
        var k :| 0 <= k < |order| && order[k] == id;
        assert r[k] == ev[id];
      }
    }
    r
  }

  /** The values of the keys `order`, position by position. */
  function Values(ev: EvidenceMap, order: seq<string>): (r: seq<SafePatternDetail>)
    requires forall id :: id in order ==> id in ev
    ensures |r| == |order|
    ensures forall k :: 0 <= k < |order| ==> r[k] == ev[order[k]]
  {
    seq(|order|, k requires 0 <= k < |order| => ev[order[k]])
  }

  /** The report of one language. */
  function Assemble(st: LanguageState, order: seq<string>, noValidation: bool, model: string): (r: FinalReport)
    requires Enumerates(order, st.safePatterns)
    ensures r.summary.checkedFiles == |r.summary.filesList| && r.summary.filesList == st.filesList
    ensures r.summary.securityIssuesFound == |r.vulnerabilitiesDetails| && r.vulnerabilitiesDetails == st.vulnerabilities
    ensures |r.safePatternsOverview| == |st.safePatterns|
    ensures forall d :: d in r.safePatternsOverview <==> exists id :: id in st.safePatterns && st.safePatterns[id] == d
    ensures noValidation ==> r.model == Skipped
    ensures !noValidation ==> r.model == model
  {
    FinalReport(
      SecurityAnalysisSummary(|st.filesList|, st.filesList, |st.vulnerabilities|),
      st.vulnerabilities,
      Overview(st.safePatterns, order),
      if noValidation then Skipped else model)
  }

  /** An enumeration of the keys is as long as the map. */
  lemma KeyCount(order: seq<string>, ev: EvidenceMap)
    requires Enumerates(order, ev)
    ensures |order| == |ev|
  {
    DistinctCount(order);
    assert ev.Keys == set id | id in order;
  }

  /** A sequence without repeats has as many distinct elements as it is long. */
  lemma {:induction false} DistinctCount(s: seq<string>)
    requires NoDuplicates(s)
    ensures |set x | x in s| == |s|
    decreases |s|
  {
    if |s| > 0 {
      var p := s[..|s| - 1];
      var last := s[|s| - 1];
      assert NoDuplicates(p);
      DistinctCount(p);
      assert last !in p;
      assert (set x | x in s) == (set x | x in p) + {last};
    }
  }

  /** With well-formed evidence, the overview lists each pattern once: its entries carry
      pairwise distinct pattern ids. */
  lemma OverviewDistinct(st: LanguageState, order: seq<string>, noValidation: bool, model: string)
    requires Enumerates(order, st.safePatterns)
    requires forall id :: id in st.safePatterns ==> st.safePatterns[id].patternId == id
    ensures var o := Assemble(st, order, noValidation, model).safePatternsOverview;
      forall i, j :: 0 <= i < j < |o| ==> o[i].patternId != o[j].patternId
  {
    var o := Assemble(st, order, noValidation, model).safePatternsOverview;
    assert forall k :: 0 <= k < |o| ==> o[k].patternId == order[k];
  }

  /** The report of a language after a successful run: it counts exactly the scanned files of
      that language and exactly its findings, and every evidence entry it shows is keyed by its
      own pattern id and counts exactly the safe-pattern hits for that id. */
  lemma ReportOfRun(re: RegexEngine, checks: seq<Check>, files: seq<FileEntry>, noValidation: bool, lang: string, order: seq<string>, model: string)
    requires AnalyzeFolder(re, checks, files, noValidation).Success?
    requires lang in AnalyzeFolder(re, checks, files, noValidation).value
    requires Enumerates(order, AnalyzeFolder(re, checks, files, noValidation).value[lang].safePatterns)
    ensures var r := Assemble(AnalyzeFolder(re, checks, files, noValidation).value[lang], order, noValidation, model);
      && r.summary.checkedFiles == |ScannedPaths(files, lang)| > 0
      && r.summary.securityIssuesFound == TotalFindings(re, checks, files, lang)
      && forall k :: 0 <= k < |r.safePatternsOverview| ==>
           r.safePatternsOverview[k].patternId == order[k] &&
           r.safePatternsOverview[k].occurrences == TotalHits(re, checks, files, lang, order[k]) > 0
  {
    var res := AnalyzeFolder(re, checks, files, noValidation).value;
    RunCounts(re, checks, files, noValidation, lang);
    AnalyzeFolderSpec(re, checks, files, noValidation);
    var r := Assemble(res[lang], order, noValidation, model);
    forall k | 0 <= k < |r.safePatternsOverview|
      ensures r.safePatternsOverview[k].patternId == order[k]
      ensures r.safePatternsOverview[k].occurrences == TotalHits(re, checks, files, lang, order[k]) > 0
    {
      EvidenceOfRun(re, checks, files, noValidation, lang, order[k]);
    }
  }
}
