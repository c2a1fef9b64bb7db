/** The vulnerability catalog: language-tagged checks, fixed for the whole run and shared read-only. */
module Catalog {
  import opened Outcomes

  /** One catalog entry (`VulnerabilityCheck`). Patterns are regular-expression texts. */
  datatype Check = Check(
    id: string,
    language: string,
    title: string,
    description: string,
    severity: string,
    pattern: string,
    safePattern: Option<string>,
    suggestedFix: string)

  /** The checks run on a file whose language tag is `lang`, in catalog order. A single check
      is kept exactly when its language matches; `ApplicableConcat` extends this to any
      catalog, check by check. */
  function Applicable(checks: seq<Check>, lang: string): (r: seq<Check>)
    ensures forall c :: c in r <==> c in checks && c.language == lang
    ensures |r| <= |checks|
    ensures |checks| == 1 ==> (r == checks <==> checks[0].language == lang) && (r == [] <==> checks[0].language != lang)
  {
    if |checks| == 0 then []
    else (if checks[0].language == lang then [checks[0]] else []) + Applicable(checks[1..], lang)
  }

  /** Filtering distributes over concatenation: together with the single-check case of
      `Applicable`, the filter keeps the catalog order and runs a check listed twice twice. */
  lemma {:induction false} ApplicableConcat(a: seq<Check>, b: seq<Check>, lang: string)
    ensures Applicable(a + b, lang) == Applicable(a, lang) + Applicable(b, lang)
    decreases |a|
  {
    if |a| == 0 {
      assert a + b == b;
    } else {
      assert (a + b)[1..] == a[1..] + b;
      ApplicableConcat(a[1..], b, lang);
    }
  }

  /** The first check of the catalog carrying `id`, if any. */
  function FindById(checks: seq<Check>, id: string): (r: Option<Check>)
    ensures r.Some? <==> exists c :: c in checks && c.id == id
    ensures r.Some? ==> r.value.id == id
    ensures r.Some? ==>
      exists k :: 0 <= k < |checks| && checks[k] == r.value && forall j :: 0 <= j < k ==> checks[j].id != id
  {
    if |checks| == 0 then None
    else if checks[0].id == id then Some(checks[0])
    else
      var r := FindById(checks[1..], id);
      assert r.Some? ==> exists k :: 1 <= k < |checks| && checks[k] == r.value && forall j :: 0 <= j < k ==> checks[j].id != id by {
        if r.Some? {
          var k' :| 0 <= k' < |checks[1..]| && checks[1..][k'] == r.value && forall j :: 0 <= j < k' ==> checks[1..][j].id != id;
          assert checks[k' + 1] == r.value;
          assert forall j :: 0 <= j < k' + 1 ==> checks[j].id != id by {
            forall j | 0 <= j < k' + 1 ensures checks[j].id != id {
              if j > 0 { assert checks[j] == checks[1..][j - 1]; }
            }
          }
        }
      }
      r
  }

  /** No two catalog entries share an id. */
  predicate UniqueIds(checks: seq<Check>) {
    forall i, j :: 0 <= i < |checks| && 0 <= j < |checks| && checks[i].id == checks[j].id ==> i == j
  }

  /** With unique ids, looking a check up by its own id finds that very check. */
  lemma FindByIdUnique(checks: seq<Check>, c: Check)
    requires UniqueIds(checks) && c in checks
    ensures FindById(checks, c.id) == Some(c)
  {
    var k :| 0 <= k < |checks| && checks[k] == FindById(checks, c.id).value;
    var i :| 0 <= i < |checks| && checks[i] == c;
  }
}
