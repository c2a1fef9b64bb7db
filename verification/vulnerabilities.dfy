/** Result construction: each raw finding of a file, joined with its catalog entry and the
    file's single validation status. */
module Vulnerabilities {
  import opened Outcomes
  import opened Catalog
  import opened Matcher

  /** `VulnerabilityResult`: one reported vulnerability. */
  datatype VulnerabilityResult = VulnerabilityResult(
    vulnerabilityId: string,
    file: string,
    lineNumber: nat,
    title: string,
    severity: string,
    status: string,
    description: string,
    fix: string,
    persistenceOfSafePattern: string,
    safePattern: Option<string>)

  /** The raw finding a result was built from. */
  function AsFinding(v: VulnerabilityResult): Finding {
    Finding(v.lineNumber, v.vulnerabilityId, v.severity, v.fix)
  }

  /** Every finding names a check of the catalog, so the lookups of its title and description
      (`find(..).unwrap()`) succeed. */
  predicate Known(checks: seq<Check>, findings: seq<Finding>) {
    forall f :: f in findings ==> FindById(checks, f.checkId).Some?
  }

  /** The result for one finding of the file `path`, whose batch was given `status`. */
  function ResultFor(checks: seq<Check>, f: Finding, path: string, status: string): (v: VulnerabilityResult)
    requires FindById(checks, f.checkId).Some?
    ensures AsFinding(v) == f
    ensures v.file == path && v.status == status
    ensures v.title == FindById(checks, f.checkId).value.title
    ensures v.description == FindById(checks, f.checkId).value.description
    ensures v.persistenceOfSafePattern == "No" && v.safePattern.None?
  {
    var c := FindById(checks, f.checkId).value;
    VulnerabilityResult(f.checkId, path, f.lineNumber, c.title, f.severity, status, c.description,
      f.suggestedFix, "No", None)
  }

  /** main.rs lines 191-214: one result per finding, in finding order, all
      attributed to `path` and sharing the one status of the file's batch. */
  function BuildResults(checks: seq<Check>, findings: seq<Finding>, path: string, status: string): (r: seq<VulnerabilityResult>)
    requires Known(checks, findings)
    ensures |r| == |findings|
    ensures forall k :: 0 <= k < |r| ==> AsFinding(r[k]) == findings[k]
    ensures forall k :: 0 <= k < |r| ==> r[k].file == path && r[k].status == status
    ensures forall k :: 0 <= k < |r| ==>
      r[k].title == FindById(checks, findings[k].checkId).value.title &&
      r[k].description == FindById(checks, findings[k].checkId).value.description
    ensures forall k :: 0 <= k < |r| ==> r[k].persistenceOfSafePattern == "No" && r[k].safePattern.None?
  {
    seq(|findings|, k requires 0 <= k < |findings| => ResultFor(checks, findings[k], path, status))
  }

  /** Building results loses nothing: projecting them back gives the findings, in order. */
  lemma {:induction false} ResultsRoundTrip(checks: seq<Check>, findings: seq<Finding>, path: string, status: string)
    requires Known(checks, findings)
    ensures Projected(BuildResults(checks, findings, path, status)) == findings
  {
    var r := BuildResults(checks, findings, path, status);
    ProjectedIndex(r);
  }

  /** The raw findings the results were built from, position by position. */
  function Projected(vs: seq<VulnerabilityResult>): (r: seq<Finding>)
  {
    seq(|vs|, k requires 0 <= k < |vs| => AsFinding(vs[k]))
  }

  /** Unfolds `Projected` position by position (a solver aid for `ResultsRoundTrip`). */
  lemma ProjectedIndex(vs: seq<VulnerabilityResult>)
    ensures |Projected(vs)| == |vs| && forall k :: 0 <= k < |vs| ==> Projected(vs)[k] == AsFinding(vs[k])
  {
  }

  /** Findings of the scanner name checks of the catalog, so result construction never panics. */
  lemma FindingsKnown(re: RegexEngine, checks: seq<Check>, lang: string, lines: seq<string>)
    ensures Known(checks, FileFindings(re, Applicable(checks, lang), lines))
  {
    FileFindingsSound(re, Applicable(checks, lang), lines);
  }

  /** With unique catalog ids, a finding's result takes title and description from the very
      check that matched. */
  lemma ResultUsesMatchedCheck(checks: seq<Check>, c: Check, n: nat, path: string, status: string)
    requires UniqueIds(checks) && c in checks
    ensures FindById(checks, c.id).Some?
    ensures ResultFor(checks, FindingFor(c, n), path, status).title == c.title
    ensures ResultFor(checks, FindingFor(c, n), path, status).description == c.description
  {
    FindByIdUnique(checks, c);
  }
}
