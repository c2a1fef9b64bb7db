/** The line matcher: one file's lines against the checks of its language, yielding raw
    findings and updating the language's safe-pattern evidence. */
module Matcher {
  import opened Outcomes
  import opened Catalog
  import opened Evidence

  /** The regular-expression library, left uninterpreted: whether a pattern text compiles
      (`Regex::new` succeeds) and whether a compiled pattern matches a line (`is_match`). */
  datatype RegexEngine = RegexEngine(compiles: string -> bool, isMatch: (string, string) -> bool)

  /** A raw finding: 1-based line number, check id, severity and suggested fix. */
  datatype Finding = Finding(lineNumber: nat, checkId: string, severity: string, suggestedFix: string)

  /** What scanning a file has produced so far: its findings, and the language's evidence map. */
  datatype FileScan = FileScan(findings: seq<Finding>, evidence: EvidenceMap)

  function FindingFor(c: Check, n: nat): Finding {
    Finding(n, c.id, c.severity, c.suggestedFix)
  }

  /** The check's primary pattern matches the line. */
  predicate Fires(re: RegexEngine, c: Check, line: string) {
    re.isMatch(c.pattern, line)
  }

  /** The check has a safe pattern, it compiles, and it matches the line. A safe pattern that
      does not compile counts as no safe pattern at all. */
  predicate SafeFires(re: RegexEngine, c: Check, line: string) {
    c.safePattern.Some? && re.compiles(c.safePattern.value) && re.isMatch(c.safePattern.value, line)
  }

  predicate AllCompile(re: RegexEngine, cs: seq<Check>) {
    forall c :: c in cs ==> re.compiles(c.pattern)
  }

  /** The first check, in catalog order, whose primary pattern does not compile. */
  function FirstBad(re: RegexEngine, cs: seq<Check>): (r: Option<Check>)
    ensures r.None? <==> AllCompile(re, cs)
    ensures r.Some? ==> exists j :: 0 <= j < |cs| && cs[j] == r.value && !re.compiles(r.value.pattern) && AllCompile(re, cs[..j])
  {
    if |cs| == 0 then None
    else
      assert cs == cs[..|cs| - 1] + [cs[|cs| - 1]];
      match FirstBad(re, cs[..|cs| - 1])
      case Some(c) =>
        assert forall j :: 0 <= j < |cs| - 1 ==> cs[..|cs| - 1][..j] == cs[..j];
        Some(c)
      case None => if re.compiles(cs[|cs| - 1].pattern) then None else Some(cs[|cs| - 1])
  }

  function BadPatternOf(c: Check): ScanError {
    BadPattern(c.id, c.pattern)
  }

  /** One (line, check) step of `analyze_folder` (main.rs lines 140-172): the primary pattern must
      compile or the run aborts; a primary match appends a finding; independently, a safe-pattern
      match records one hit of evidence. */
  function MatchCheck(re: RegexEngine, c: Check, path: string, n: nat, line: string, acc: FileScan): (r: Result<FileScan, ScanError>)
    ensures r.Failure? <==> !re.compiles(c.pattern)
    ensures r.Failure? ==> r.error == BadPatternOf(c)
    ensures r.Success? ==> r.value.findings == acc.findings + (if Fires(re, c, line) then [FindingFor(c, n)] else [])
    ensures r.Success? ==> Advanced(acc.evidence, r.value.evidence, path, c.id, if SafeFires(re, c, line) then 1 else 0)
    ensures r.Success? ==> forall id :: id != c.id ==> Advanced(acc.evidence, r.value.evidence, path, id, 0)
    ensures r.Success? ==> Preserves(acc.evidence, r.value.evidence) && CreatedFrom(acc.evidence, r.value.evidence, [c])
    ensures r.Success? && WellFormed(acc.evidence) ==> WellFormed(r.value.evidence)
  {
    if !re.compiles(c.pattern) then Failure(BadPatternOf(c))
    else
      var findings := if Fires(re, c, line) then acc.findings + [FindingFor(c, n)] else acc.findings;
      var evidence := if SafeFires(re, c, line) then RecordHit(acc.evidence, c, path) else acc.evidence;
      Success(FileScan(findings, evidence))
  }

  /** Line `n` of the file against every applicable check, in catalog order. It aborts exactly
      when some primary pattern does not compile, whether or not the line matches anything,
      and then reports the first such check. */
  function MatchLine(re: RegexEngine, cs: seq<Check>, path: string, n: nat, line: string, acc: FileScan): (r: Result<FileScan, ScanError>)
    ensures r.Success? <==> AllCompile(re, cs)
    ensures r.Failure? ==> r.error == BadPatternOf(FirstBad(re, cs).value)
    decreases |cs|
  {
    if |cs| == 0 then Success(acc)
    else
      var p := cs[..|cs| - 1];
      assert cs == p + [cs[|cs| - 1]];
      match MatchLine(re, p, path, n, line, acc)
      case Failure(e) =>
        assert FirstBad(re, cs) == FirstBad(re, p);
        Failure(e)
      case Success(a) => MatchCheck(re, cs[|cs| - 1], path, n, line, a)
  }

  /** Every line of the file, in order, numbered from 1. It aborts exactly when the file has a
      line and some primary pattern does not compile, reporting the first such check. */
  function MatchLines(re: RegexEngine, cs: seq<Check>, path: string, lines: seq<string>, acc: FileScan): (r: Result<FileScan, ScanError>)
    ensures r.Success? <==> |lines| == 0 || AllCompile(re, cs)
    ensures r.Failure? ==> r.error == BadPatternOf(FirstBad(re, cs).value)
    decreases |lines|
  {
    if |lines| == 0 then Success(acc)
    else
      match MatchLines(re, cs, path, lines[..|lines| - 1], acc)
      case Failure(e) => Failure(e)
      case Success(a) => MatchLine(re, cs, path, |lines|, lines[|lines| - 1], a)
  }

  /** Scans the file `path` with lines `lines` against the applicable checks `cs`, starting
      from no findings and the language's current evidence `evidence`. An empty file never
      aborts; a non-empty one aborts exactly when a primary pattern does not compile. */
  function ScanFile(re: RegexEngine, cs: seq<Check>, path: string, lines: seq<string>, evidence: EvidenceMap): (r: Result<FileScan, ScanError>)
    ensures r.Success? <==> |lines| == 0 || AllCompile(re, cs)
    ensures r.Failure? ==> r.error == BadPatternOf(FirstBad(re, cs).value)
  {
    MatchLines(re, cs, path, lines, FileScan([], evidence))
  }

  // Reference definitions: what a file's scan yields, stated without evidence or errors.

  /** The findings of one line: one per check whose pattern matches, in catalog order. */
  function LineFindings(re: RegexEngine, cs: seq<Check>, n: nat, line: string): seq<Finding>
    decreases |cs|
  {
    if |cs| == 0 then []
    else LineFindings(re, cs[..|cs| - 1], n, line) + (if Fires(re, cs[|cs| - 1], line) then [FindingFor(cs[|cs| - 1], n)] else [])
  }

  /** The findings of a file: its lines' findings in line order. */
  function FileFindings(re: RegexEngine, cs: seq<Check>, lines: seq<string>): seq<Finding>
    decreases |lines|
  {
    if |lines| == 0 then []
    else FileFindings(re, cs, lines[..|lines| - 1]) + LineFindings(re, cs, |lines|, lines[|lines| - 1])
  }

  /** How many of the checks carrying `id` have a safe pattern matching `line`. */
  function LineHits(re: RegexEngine, cs: seq<Check>, id: string, line: string): nat
    decreases |cs|
  {
    if |cs| == 0 then 0
    else LineHits(re, cs[..|cs| - 1], id, line) + (if cs[|cs| - 1].id == id && SafeFires(re, cs[|cs| - 1], line) then 1 else 0)
  }

  /** The safe-pattern hits for `id` over all lines of a file. */
  function FileHits(re: RegexEngine, cs: seq<Check>, id: string, lines: seq<string>): nat
    decreases |lines|
  {
    if |lines| == 0 then 0
    else FileHits(re, cs, id, lines[..|lines| - 1]) + LineHits(re, cs, id, lines[|lines| - 1])
  }

  /** The effect of matching one line on the scan state: the line's reference findings are
      appended, each id's evidence advances by exactly its reference hits, existing entries
      keep their metadata, new entries come from the scanned checks, and well-formedness is kept. */
  ghost predicate LineScanned(re: RegexEngine, cs: seq<Check>, path: string, n: nat, line: string, acc: FileScan, r: FileScan) {
    && r.findings == acc.findings + LineFindings(re, cs, n, line)
    && (forall id :: Advanced(acc.evidence, r.evidence, path, id, LineHits(re, cs, id, line)))
    && Preserves(acc.evidence, r.evidence)
    && CreatedFrom(acc.evidence, r.evidence, cs)
    && (WellFormed(acc.evidence) ==> WellFormed(r.evidence))
  }

  /** The same for all lines of a file. */
  ghost predicate LinesScanned(re: RegexEngine, cs: seq<Check>, path: string, lines: seq<string>, acc: FileScan, r: FileScan) {
    && r.findings == acc.findings + FileFindings(re, cs, lines)
    && (forall id :: Advanced(acc.evidence, r.evidence, path, id, FileHits(re, cs, id, lines)))
    && Preserves(acc.evidence, r.evidence)
    && CreatedFrom(acc.evidence, r.evidence, cs)
    && (WellFormed(acc.evidence) ==> WellFormed(r.evidence))
  }

  /** Matching one line fails exactly when some applicable primary pattern does not compile,
      reporting the first such check; otherwise it has the reference effect. */
  lemma {:induction false} MatchLineSpec(re: RegexEngine, cs: seq<Check>, path: string, n: nat, line: string, acc: FileScan)
    ensures MatchLine(re, cs, path, n, line, acc).Success? <==> AllCompile(re, cs)
    ensures MatchLine(re, cs, path, n, line, acc).Failure? ==>
      MatchLine(re, cs, path, n, line, acc).error == BadPatternOf(FirstBad(re, cs).value)
    ensures MatchLine(re, cs, path, n, line, acc).Success? ==>
      LineScanned(re, cs, path, n, line, acc, MatchLine(re, cs, path, n, line, acc).value)
    decreases |cs|
  {
    if |cs| > 0 {
      var p := cs[..|cs| - 1];
      var c := cs[|cs| - 1];
      assert cs == p + [c];
      MatchLineSpec(re, p, path, n, line, acc);
      match MatchLine(re, p, path, n, line, acc)
      case Failure(e) =>
        assert !AllCompile(re, p);
        assert FirstBad(re, cs) == FirstBad(re, p);
      case Success(a) =>
        assert AllCompile(re, p);
        var r := MatchCheck(re, c, path, n, line, a);
        assert MatchLine(re, cs, path, n, line, acc) == r;
        if r.Success? {
          assert AllCompile(re, cs);
          CheckStep(re, cs, p, c, path, n, line, acc, a, r.value);
        } else {
          assert FirstBad(re, p).None?;
          assert FirstBad(re, cs) == Some(c);
        }
    }
  }

  /** The reference effect of the first checks, then one more check, is that of all of them. */
  lemma CheckStep(re: RegexEngine, cs: seq<Check>, p: seq<Check>, c: Check, path: string, n: nat, line: string,
                  acc: FileScan, a: FileScan, b: FileScan)
    requires |cs| > 0 && p == cs[..|cs| - 1] && c == cs[|cs| - 1]
    requires LineScanned(re, p, path, n, line, acc, a)
    requires MatchCheck(re, c, path, n, line, a) == Success(b)
    ensures LineScanned(re, cs, path, n, line, acc, b)
  {
    assert cs == p + [c];
    assert b.findings == acc.findings + LineFindings(re, cs, n, line);
    forall id ensures Advanced(acc.evidence, b.evidence, path, id, LineHits(re, cs, id, line)) {
      AdvancedCompose(acc.evidence, a.evidence, b.evidence, path, id,
        LineHits(re, p, id, line), if c.id == id && SafeFires(re, c, line) then 1 else 0);
    }
    CreatedFromCompose(acc.evidence, a.evidence, b.evidence, p, [c], cs);
  }

  /** Matching all lines fails exactly when the file has a line and some applicable primary
      pattern does not compile, reporting the first such check; otherwise it has the
      reference effect. */
  lemma {:induction false} MatchLinesSpec(re: RegexEngine, cs: seq<Check>, path: string, lines: seq<string>, acc: FileScan)
    ensures MatchLines(re, cs, path, lines, acc).Success? <==> |lines| == 0 || AllCompile(re, cs)
    ensures MatchLines(re, cs, path, lines, acc).Failure? ==>
      MatchLines(re, cs, path, lines, acc).error == BadPatternOf(FirstBad(re, cs).value)
    ensures MatchLines(re, cs, path, lines, acc).Success? ==>
      LinesScanned(re, cs, path, lines, acc, MatchLines(re, cs, path, lines, acc).value)
    decreases |lines|
  {
    if |lines| > 0 {
      var p := lines[..|lines| - 1];
      var line := lines[|lines| - 1];
      MatchLinesSpec(re, cs, path, p, acc);
      match MatchLines(re, cs, path, p, acc)
      case Failure(e) =>
        assert |p| > 0 && !AllCompile(re, cs);
      case Success(a) =>
        MatchLineSpec(re, cs, path, |lines|, line, a);
        var r := MatchLine(re, cs, path, |lines|, line, a);
        assert MatchLines(re, cs, path, lines, acc) == r;
        if r.Success? {
          LineStep(re, cs, path, lines, p, line, acc, a, r.value);
        }
    }
  }

  /** The reference effect of the first lines, then one more line, is that of all of them. */
  lemma LineStep(re: RegexEngine, cs: seq<Check>, path: string, lines: seq<string>, p: seq<string>, line: string,
                 acc: FileScan, a: FileScan, b: FileScan)
    requires |lines| > 0 && p == lines[..|lines| - 1] && line == lines[|lines| - 1]
    requires LinesScanned(re, cs, path, p, acc, a)
    requires LineScanned(re, cs, path, |lines|, line, a, b)
    ensures LinesScanned(re, cs, path, lines, acc, b)
  {
    assert b.findings == acc.findings + FileFindings(re, cs, lines);
    forall id ensures Advanced(acc.evidence, b.evidence, path, id, FileHits(re, cs, id, lines)) {
      AdvancedCompose(acc.evidence, a.evidence, b.evidence, path, id,
        FileHits(re, cs, id, p), LineHits(re, cs, id, line));
    }
    CreatedFromCompose(acc.evidence, a.evidence, b.evidence, cs, cs, cs);
  }

  /** Scanning a file: it aborts exactly when the file is non-empty and an applicable primary
      pattern does not compile (the first such check is reported, the safe patterns never
      abort); otherwise it yields exactly the reference findings, advances every id's evidence
      by exactly the file's reference hits and keeps the evidence well formed. */
  lemma ScanFileSpec(re: RegexEngine, cs: seq<Check>, path: string, lines: seq<string>, evidence: EvidenceMap)
    ensures ScanFile(re, cs, path, lines, evidence).Success? <==> |lines| == 0 || AllCompile(re, cs)
    ensures ScanFile(re, cs, path, lines, evidence).Failure? ==>
      ScanFile(re, cs, path, lines, evidence).error == BadPatternOf(FirstBad(re, cs).value)
    ensures ScanFile(re, cs, path, lines, evidence).Success? ==>
      LinesScanned(re, cs, path, lines, FileScan([], evidence), ScanFile(re, cs, path, lines, evidence).value)
  {
    MatchLinesSpec(re, cs, path, lines, FileScan([], evidence));
  }

  // Properties of the reference definitions.

  /** A line yields a finding for exactly the checks whose pattern matches it, numbered with that line. */
  lemma {:induction false} LineFindingsSpec(re: RegexEngine, cs: seq<Check>, n: nat, line: string)
    ensures forall f :: f in LineFindings(re, cs, n, line) <==>
      exists c :: c in cs && Fires(re, c, line) && f == FindingFor(c, n)
    decreases |cs|
  {
    if |cs| > 0 {
      var p := cs[..|cs| - 1];
      assert cs == p + [cs[|cs| - 1]];
      LineFindingsSpec(re, p, n, line);
    }
  }

  /** Every finding of a file sits on one of its lines (numbered from 1) and comes from a check
      whose pattern matches that line. */
  lemma {:induction false} FileFindingsSound(re: RegexEngine, cs: seq<Check>, lines: seq<string>)
    ensures forall f :: f in FileFindings(re, cs, lines) ==>
      && 1 <= f.lineNumber <= |lines|
      && exists c :: c in cs && Fires(re, c, lines[f.lineNumber - 1]) && f == FindingFor(c, f.lineNumber)
    decreases |lines|
  {
    if |lines| > 0 {
      var p := lines[..|lines| - 1];
      FileFindingsSound(re, cs, p);
      LineFindingsSpec(re, cs, |lines|, lines[|lines| - 1]);
      forall f | f in FileFindings(re, cs, lines)
        ensures 1 <= f.lineNumber <= |lines|
        ensures exists c :: c in cs && Fires(re, c, lines[f.lineNumber - 1]) && f == FindingFor(c, f.lineNumber)
      {
        if f in FileFindings(re, cs, p) {
          assert p[f.lineNumber - 1] == lines[f.lineNumber - 1];
        }
      }
    }
  }

  /** Every (line, check) pair whose pattern matches yields a finding. */
  lemma {:induction false} FileFindingsComplete(re: RegexEngine, cs: seq<Check>, lines: seq<string>)
    ensures forall i, c :: 0 <= i < |lines| && c in cs && Fires(re, c, lines[i]) ==>
      FindingFor(c, i + 1) in FileFindings(re, cs, lines)
    decreases |lines|
  {
    if |lines| > 0 {
      var p := lines[..|lines| - 1];
      FileFindingsComplete(re, cs, p);
      LineFindingsSpec(re, cs, |lines|, lines[|lines| - 1]);
      forall i, c | 0 <= i < |lines| && c in cs && Fires(re, c, lines[i])
        ensures FindingFor(c, i + 1) in FileFindings(re, cs, lines)
      {
        if i < |p| {
          assert p[i] == lines[i];
        }
      }
    }
  }

  /** A file's findings are in line order. */
  lemma {:induction false} FileFindingsOrdered(re: RegexEngine, cs: seq<Check>, lines: seq<string>)
    ensures forall a, b :: 0 <= a < b < |FileFindings(re, cs, lines)| ==>
      FileFindings(re, cs, lines)[a].lineNumber <= FileFindings(re, cs, lines)[b].lineNumber
    decreases |lines|
  {
    if |lines| > 0 {
      var p := lines[..|lines| - 1];
      var front := FileFindings(re, cs, p);
      var back := LineFindings(re, cs, |lines|, lines[|lines| - 1]);
      var all := FileFindings(re, cs, lines);
      assert all == front + back;
      FileFindingsOrdered(re, cs, p);
      FileFindingsSound(re, cs, p);
      LineFindingsSpec(re, cs, |lines|, lines[|lines| - 1]);
      forall a, b | 0 <= a < b < |all| ensures all[a].lineNumber <= all[b].lineNumber {
        if a < |front| {
          assert all[a] == front[a] && all[a] in front;
          if b >= |front| { assert all[b] == back[b - |front|] && all[b] in back; }
        } else {
          assert all[a] == back[a - |front|] && all[a] in back;
          assert all[b] == back[b - |front|] && all[b] in back;
        }
      }
    }
  }

  /** The findings on line `n`, in the order they appear in `fs`. */
  function FindingsOn(fs: seq<Finding>, n: nat): seq<Finding>
    decreases |fs|
  {
    if |fs| == 0 then []
    else FindingsOn(fs[..|fs| - 1], n) + (if fs[|fs| - 1].lineNumber == n then [fs[|fs| - 1]] else [])
  }

  lemma {:induction false} FindingsOnConcat(a: seq<Finding>, b: seq<Finding>, n: nat)
    ensures FindingsOn(a + b, n) == FindingsOn(a, n) + FindingsOn(b, n)
    decreases |b|
  {
    if |b| > 0 {
      assert (a + b)[..|a + b| - 1] == a + b[..|b| - 1];
      FindingsOnConcat(a, b[..|b| - 1], n);
    } else {
      assert a + b == a;
    }
  }

  lemma {:induction false} FindingsOnAll(fs: seq<Finding>, n: nat)
    ensures (forall f :: f in fs ==> f.lineNumber == n) ==> FindingsOn(fs, n) == fs
    ensures (forall f :: f in fs ==> f.lineNumber != n) ==> FindingsOn(fs, n) == []
    decreases |fs|
  {
    if |fs| > 0 {
      assert fs == fs[..|fs| - 1] + [fs[|fs| - 1]];
      FindingsOnAll(fs[..|fs| - 1], n);
    }
  }

  /** Within a file, the findings on each line are exactly that line's findings in catalog
      order: findings come in line order, then catalog order. */
  lemma {:induction false} FindingsOfLine(re: RegexEngine, cs: seq<Check>, lines: seq<string>, i: nat)
    requires i < |lines|
    ensures FindingsOn(FileFindings(re, cs, lines), i + 1) == LineFindings(re, cs, i + 1, lines[i])
    decreases |lines|
  {
    var p := lines[..|lines| - 1];
    var last := LineFindings(re, cs, |lines|, lines[|lines| - 1]);
    FindingsOnConcat(FileFindings(re, cs, p), last, i + 1);
    LineFindingsSpec(re, cs, |lines|, lines[|lines| - 1]);
    FindingsOnAll(last, i + 1);
    if i == |lines| - 1 {
      FileFindingsSound(re, cs, p);
      FindingsOnAll(FileFindings(re, cs, p), i + 1);
    } else {
      FindingsOfLine(re, cs, p, i);
      assert p[i] == lines[i];
    }
  }

  /** A line scores a hit for `id` exactly when some check carrying `id` safely matches it. */
  lemma {:induction false} LineHitsPositive(re: RegexEngine, cs: seq<Check>, id: string, line: string)
    ensures LineHits(re, cs, id, line) > 0 <==> exists c :: c in cs && c.id == id && SafeFires(re, c, line)
    decreases |cs|
  {
    if |cs| > 0 {
      var p := cs[..|cs| - 1];
      assert cs == p + [cs[|cs| - 1]];
      LineHitsPositive(re, p, id, line);
    }
  }

  /** A file scores a hit for `id` exactly when one of its lines is safely matched by a check carrying `id`. */
  lemma {:induction false} FileHitsPositive(re: RegexEngine, cs: seq<Check>, id: string, lines: seq<string>)
    ensures FileHits(re, cs, id, lines) > 0 <==>
      exists i, c :: 0 <= i < |lines| && c in cs && c.id == id && SafeFires(re, c, lines[i])
    decreases |lines|
  {
    if |lines| > 0 {
      var p := lines[..|lines| - 1];
      FileHitsPositive(re, cs, id, p);
      LineHitsPositive(re, cs, id, lines[|lines| - 1]);
      if FileHits(re, cs, id, lines) > 0 {
        if FileHits(re, cs, id, p) > 0 {
          var i, c :| 0 <= i < |p| && c in cs && c.id == id && SafeFires(re, c, p[i]);
          assert lines[i] == p[i];
        } else {
          var c :| c in cs && c.id == id && SafeFires(re, c, lines[|lines| - 1]);
        }
      }
      if exists i, c :: 0 <= i < |lines| && c in cs && c.id == id && SafeFires(re, c, lines[i]) {
        var i, c :| 0 <= i < |lines| && c in cs && c.id == id && SafeFires(re, c, lines[i]);
        if i < |p| { assert p[i] == lines[i]; }
      }
    }
  }

  /** A check without a safe pattern, or with one that does not compile, never scores a hit. */
  lemma NoSafePatternNoHits(re: RegexEngine, cs: seq<Check>, id: string, lines: seq<string>)
    requires forall c :: c in cs && c.id == id ==> c.safePattern.None? || !re.compiles(c.safePattern.value)
    ensures FileHits(re, cs, id, lines) == 0
  {
    FileHitsPositive(re, cs, id, lines);
  }

  /** The number of lines a check's safe pattern matches. */
  function SafeLines(re: RegexEngine, c: Check, lines: seq<string>): nat
    decreases |lines|
  {
    if |lines| == 0 then 0
    else SafeLines(re, c, lines[..|lines| - 1]) + (if SafeFires(re, c, lines[|lines| - 1]) then 1 else 0)
  }

  /** With unique ids, a line scores one hit for a check's id when its safe pattern matches and none otherwise. */
  lemma {:induction false} LineHitsOfUnique(re: RegexEngine, cs: seq<Check>, c: Check, line: string)
    requires UniqueIds(cs) && c in cs
    ensures LineHits(re, cs, c.id, line) == if SafeFires(re, c, line) then 1 else 0
    decreases |cs|
  {
    var p := cs[..|cs| - 1];
    var last := cs[|cs| - 1];
    assert cs == p + [last];
    assert UniqueIds(p);
    if last.id == c.id {
      var k :| 0 <= k < |cs| && cs[k] == c;
      assert k == |cs| - 1;
      assert forall d :: d in p ==> d.id != c.id;
      LineHitsPositive(re, p, c.id, line);
    } else {
      assert c in p;
      LineHitsOfUnique(re, p, c, line);
    }
  }

  /** With unique ids, a check's hits over a file are exactly the lines its safe pattern matches:
      occurrences count matching lines, not deduplicated. */
  lemma {:induction false} FileHitsOfUnique(re: RegexEngine, cs: seq<Check>, c: Check, lines: seq<string>)
    requires UniqueIds(cs) && c in cs
    ensures FileHits(re, cs, c.id, lines) == SafeLines(re, c, lines)
    decreases |lines|
  {
    if |lines| > 0 {
      FileHitsOfUnique(re, cs, c, lines[..|lines| - 1]);
      LineHitsOfUnique(re, cs, c, lines[|lines| - 1]);
    }
  }
}
