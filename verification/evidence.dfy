/** Safe-pattern evidence: per check id, how often its safe pattern matched and in which files. */
module Evidence {
  import opened Outcomes
  import opened Catalog

  /** `SafePatternDetail`: the evidence gathered for one check of one language. */
  datatype SafePatternDetail = SafePatternDetail(
    patternId: string,
    title: string,
    safePattern: string,
    occurrences: nat,
    files: seq<string>)

  /** One language's `safe_patterns_overview` map, keyed by check id. */
  type EvidenceMap = map<string, SafePatternDetail>

  predicate NoDuplicates<T(==)>(s: seq<T>) {
    forall i, j :: 0 <= i < j < |s| ==> s[i] != s[j]
  }

  /** The occurrence count recorded for `id`, zero when it has no entry. */
  function Occurrences(ev: EvidenceMap, id: string): nat {
    if id in ev then ev[id].occurrences else 0
  }

  /** The files recorded for `id`, empty when it has no entry. */
  function FilesOf(ev: EvidenceMap, id: string): seq<string> {
    if id in ev then ev[id].files else []
  }

  /** Every entry is keyed by its own pattern id, lists each file once, lists at least one
      file, and has counted at least one occurrence per listed file. */
  ghost predicate WellFormed(ev: EvidenceMap) {
    forall id :: id in ev ==>
      && ev[id].patternId == id
      && NoDuplicates(ev[id].files)
      && 0 < |ev[id].files| <= ev[id].occurrences
  }

  predicate SameMeta(d: SafePatternDetail, d': SafePatternDetail) {
    d.patternId == d'.patternId && d.title == d'.title && d.safePattern == d'.safePattern
  }

  /** `ev'` keeps every entry of `ev` with its id, title and safe pattern unchanged. */
  ghost predicate Preserves(ev: EvidenceMap, ev': EvidenceMap) {
    forall id :: id in ev ==> id in ev' && SameMeta(ev[id], ev'[id])
  }

  /** `ev'` is `ev` after `hits` safe-pattern matches for `id` in the file `path`: the count
      grows by exactly `hits`, the path is appended once if there was a match and it was not
      listed yet, and an entry exists afterwards exactly when one existed or a match occurred. */
  ghost predicate Advanced(ev: EvidenceMap, ev': EvidenceMap, path: string, id: string, hits: nat) {
    && (id in ev' <==> id in ev || hits > 0)
    && Occurrences(ev', id) == Occurrences(ev, id) + hits
    && FilesOf(ev', id) == FilesOf(ev, id) + (if hits > 0 && path !in FilesOf(ev, id) then [path] else [])
  }

  /** `d` was created for one of the checks `cs`: it carries that check's id, title and safe pattern. */
  ghost predicate CreatedBy(d: SafePatternDetail, cs: seq<Check>) {
    exists c :: c in cs && d.patternId == c.id && d.title == c.title && c.safePattern == Some(d.safePattern)
  }

  /** Every entry `ev'` has and `ev` lacks was created for one of the checks `cs`. */
  ghost predicate CreatedFrom(ev: EvidenceMap, ev': EvidenceMap, cs: seq<Check>) {
    forall id :: id in ev' && id !in ev ==> CreatedBy(ev'[id], cs)
  }

  /** One safe-pattern hit of check `c` on a line of `path` (main.rs lines 157-170):
      the entry is created on first use with zero occurrences, no files, the check's id and
      title, and the safe pattern text (`unwrap_or_default`); its count then goes up by one, and
      the path is appended only if it is not already listed. */
  function RecordHit(ev: EvidenceMap, c: Check, path: string): (r: EvidenceMap)
    ensures Advanced(ev, r, path, c.id, 1)
    ensures forall k :: k != c.id ==> Advanced(ev, r, path, k, 0)
    ensures Preserves(ev, r)
    ensures c.safePattern.Some? ==> CreatedFrom(ev, r, [c])
    ensures WellFormed(ev) ==> WellFormed(r)
  {
    var text := match c.safePattern case Some(sp) => sp case None => "";
    var d := if c.id in ev then ev[c.id] else SafePatternDetail(c.id, c.title, text, 0, []);
    ev[c.id := d.(occurrences := d.occurrences + 1, files := if path in d.files then d.files else d.files + [path])]
  }

  /** Hits on one file compose: `h1` then `h2` matches amount to `h1 + h2` matches. */
  lemma AdvancedCompose(ev1: EvidenceMap, ev2: EvidenceMap, ev3: EvidenceMap, path: string, id: string, h1: nat, h2: nat)
    requires Advanced(ev1, ev2, path, id, h1) && Advanced(ev2, ev3, path, id, h2)
    ensures Advanced(ev1, ev3, path, id, h1 + h2)
  {
  }

  /** Entries created in two successive steps were each created for a check of the combined catalog. */
  lemma CreatedFromCompose(ev1: EvidenceMap, ev2: EvidenceMap, ev3: EvidenceMap, cs1: seq<Check>, cs2: seq<Check>, cs: seq<Check>)
    requires CreatedFrom(ev1, ev2, cs1) && CreatedFrom(ev2, ev3, cs2) && Preserves(ev2, ev3)
    requires forall c :: c in cs1 ==> c in cs
    requires forall c :: c in cs2 ==> c in cs
    ensures CreatedFrom(ev1, ev3, cs)
  {
    forall id | id in ev3 && id !in ev1 ensures CreatedBy(ev3[id], cs) {
      if id in ev2 {
        var c :| c in cs1 && ev2[id].patternId == c.id && ev2[id].title == c.title && c.safePattern == Some(ev2[id].safePattern);
        assert SameMeta(ev2[id], ev3[id]);
      } else {
        var c :| c in cs2 && ev3[id].patternId == c.id && ev3[id].title == c.title && c.safePattern == Some(ev3[id].safePattern);
      }
    }
  }

  /** `s` with later repetitions of a path dropped: the reference for a first-seen,
      duplicate-free file list. */
  function Dedup(s: seq<string>): (r: seq<string>)
    ensures NoDuplicates(r)
    ensures forall x :: x in r <==> x in s
  {
    if |s| == 0 then []
    else
      assert s == s[..|s| - 1] + [s[|s| - 1]];
      var d := Dedup(s[..|s| - 1]);
      if s[|s| - 1] in d then d else d + [s[|s| - 1]]
  }

  /** Deduplication keeps first-seen order: extending the input only ever appends to the output. */
  lemma {:induction false} DedupPrefix(s: seq<string>, k: nat)
    requires k <= |s|
    ensures Dedup(s[..k]) <= Dedup(s)
    decreases |s|
  {
    if k < |s| {
      assert s[..|s| - 1][..k] == s[..k];
      DedupPrefix(s[..|s| - 1], k);
    } else {
      assert s[..k] == s;
    }
  }
}
