/** Language detection: a file's language follows from the extension of its path. */
module Paths {
  import opened Outcomes

  const RustLanguage: string := "Rust"
  const SolidityLanguage: string := "Solidity-Ethereum"

  /** Position of the last occurrence of `ch` in `s`, if any. */
  function LastIndexOf(s: string, ch: char): (r: Option<nat>)
    ensures r.None? <==> forall j :: 0 <= j < |s| ==> s[j] != ch
    ensures r.Some? ==> r.value < |s| && s[r.value] == ch && forall j :: r.value < j < |s| ==> s[j] != ch
  {
    LastIndexBelow(s, ch, |s|)
  }

  /** Position of the last occurrence of `ch` among the first `n` characters of `s`, if any. */
  function LastIndexBelow(s: string, ch: char, n: nat): (r: Option<nat>)
    requires n <= |s|
    ensures r.None? <==> forall j :: 0 <= j < n ==> s[j] != ch
    ensures r.Some? ==> r.value < n && s[r.value] == ch && forall j :: r.value < j < n ==> s[j] != ch
    decreases n
  {
    if n == 0 then None
    else if s[n - 1] == ch then Some(n - 1)
    else LastIndexBelow(s, ch, n - 1)
  }

  /** The final component of a path: the text after its last separator. */
  function FileName(path: string): (r: string)
    ensures '/' !in r
    ensures |r| <= |path| && r == path[|path| - |r|..]
    ensures |r| < |path| ==> path[|path| - |r| - 1] == '/'
  {
    match LastIndexOf(path, '/')
    case None => path
    case Some(i) => path[i + 1..]
  }

  /** `Path::extension`: the text after the last '.' of the file name. There is none when the
      name holds no '.', when its only '.' is its first character, or when the name is "..". */
  function Extension(path: string): (r: Option<string>)
    ensures r.Some? ==> '.' !in r.value && '/' !in r.value
  {
    var name := FileName(path);
    if name == ".." then None
    else
      match LastIndexOf(name, '.')
      case None => None
      case Some(i) => if i == 0 then None else Some(name[i + 1..])
  }

  /** The language `analyze_folder` scans a file as: "rs" is Rust, "sol" is Solidity; any
      other extension, or none, means the file is skipped. */
  function LanguageOf(path: string): (r: Option<string>)
    ensures r.Some? ==> r.value == RustLanguage || r.value == SolidityLanguage
  {
    match Extension(path)
    case None => None
    case Some(ext) => LanguageOfExtension(ext)
  }

  /** "rs" is Rust, "sol" is Solidity, anything else is skipped. */
  function LanguageOfExtension(ext: string): (r: Option<string>)
    ensures r == Some(RustLanguage) <==> ext == "rs"
    ensures r == Some(SolidityLanguage) <==> ext == "sol"
    ensures r.Some? ==> r.value == RustLanguage || r.value == SolidityLanguage
  {
    // For the solver: the two tags differ, so each if-and-only-if excludes the other tag.
    assert RustLanguage[0] != SolidityLanguage[0];
    if ext == "rs" then Some(RustLanguage)
    else if ext == "sol" then Some(SolidityLanguage)
    else None
  }

  /** `path` ends with `suffix` and the character before it exists and is not a separator. */
  predicate EndsWithStem(path: string, suffix: string) {
    |path| > |suffix| && path[|path| - |suffix|..] == suffix && path[|path| - |suffix| - 1] != '/'
  }

  /** The tail of a path that ends in `name` is the tail of `name`, one character further too. */
  lemma TailOfName(path: string, name: string, n: nat)
    requires |name| <= |path| && path[|path| - |name|..] == name && n <= |name|
    ensures path[|path| - n..] == name[|name| - n..]
    ensures n < |name| ==> path[|path| - n - 1] == name[|name| - n - 1]
  {
    var off := |path| - |name|;
    forall j | 0 <= j < |name| ensures path[off + j] == name[j] {
      assert path[off..][j] == name[j];
    }
  }

  /** A path ending in a dot, a non-empty dot-free extension and a stem before it has that extension. */
  lemma {:induction false} SuffixGivesExtension(path: string, ext: string)
    requires ext != "" && '.' !in ext && '/' !in ext
    requires EndsWithStem(path, "." + ext)
    ensures Extension(path) == Some(ext)
  {
    var dot := NameDot(path, ext);
  }

  /** The empty extension: a path ending in a dot after a stem has it, unless its final
      component is "..", which has no extension at all. */
  lemma {:induction false} EmptyExtension(path: string)
    ensures Extension(path) == Some("") <==> EndsWithStem(path, ".") && FileName(path) != ".."
  {
    if EndsWithStem(path, ".") && FileName(path) != ".." {
      EmptyFromSuffix(path);
    }
    if Extension(path) == Some("") {
      assert "." + "" == ".";
      ExtensionGivesSuffix(path, "");
    }
  }

  /** A path ending in a dot after a stem, other than "..", has the empty extension. */
  lemma EmptyFromSuffix(path: string)
    requires EndsWithStem(path, ".") && FileName(path) != ".."
    ensures Extension(path) == Some("")
  {
    var name := FileName(path);
    NameCoversSuffix(path, ".");
    TailOfName(path, name, 1);
    assert name[|name| - 1] == name[|name| - 1..][0];
    DotAtEnd(name);
  }

  /** A name of two or more characters ending in a dot has its last dot at the end. */
  lemma DotAtEnd(name: string)
    requires |name| > 1 && name[|name| - 1] == '.'
    ensures LastIndexOf(name, '.') == Some(|name| - 1) && name[|name|..] == ""
  {
  }

  /** Where the dot before the extension sits in the file name. */
  lemma NameDot(path: string, ext: string) returns (dot: nat)
    requires ext != "" && '.' !in ext && '/' !in ext
    requires EndsWithStem(path, "." + ext)
    ensures 0 < dot < |FileName(path)| && FileName(path) != ".."
    ensures LastIndexOf(FileName(path), '.') == Some(dot) && FileName(path)[dot + 1..] == ext
  {
    var name := FileName(path);
    NameCoversSuffix(path, "." + ext);
    dot := DotOfName(path, name, ext);
  }

  /** The same for a final component `name` that reaches over the suffix (a solver aid: it
      keeps the definition of `FileName` out of the sequence reasoning). */
  lemma DotOfName(path: string, name: string, ext: string) returns (dot: nat)
    requires ext != "" && '.' !in ext
    requires |name| <= |path| && path[|path| - |name|..] == name
    requires |name| > |"." + ext| && path[|path| - |"." + ext|..] == "." + ext
    ensures 0 < dot < |name| && name != ".."
    ensures LastIndexOf(name, '.') == Some(dot) && name[dot + 1..] == ext
  {
    var suffix := "." + ext;
    TailOfName(path, name, |suffix|);
    dot := |name| - |suffix|;
    SplitDot(name, ext, dot);
    LastDot(name, ext, dot);
  }

  /** A name whose tail from `dot` is "." + `ext` has a dot there, followed by `ext`. */
  lemma SplitDot(name: string, ext: string, dot: nat)
    requires dot <= |name| && name[dot..] == "." + ext
    ensures dot < |name| && name[dot] == '.' && name[dot + 1..] == ext
  {
    assert name[dot] == name[dot..][0];
    assert name[dot + 1..] == name[dot..][1..];
  }

  /** A dot followed by a dot-free non-empty tail is the last dot, and the name is not "..". */
  lemma LastDot(name: string, ext: string, dot: nat)
    requires ext != "" && '.' !in ext
    requires dot < |name| && name[dot] == '.' && name[dot + 1..] == ext
    ensures name != ".." && LastIndexOf(name, '.') == Some(dot)
  {
    match LastIndexOf(name, '.')
    case None =>
    case Some(i) =>
  }

  /** The file name reaches over the suffix and the character before it. */
  lemma NameCoversSuffix(path: string, suffix: string)
    requires '/' !in suffix && EndsWithStem(path, suffix)
    ensures |FileName(path)| > |suffix|
  {
    var k := |path| - |suffix| - 1;
    forall j | k <= j < |path| ensures path[j] != '/' {
      if j > k {
        assert path[j] == path[k + 1..][j - k - 1];
      }
    }
  }

  /** A path with a non-empty dot-free extension ends in a dot, that extension and a stem before it. */
  lemma {:induction false} ExtensionGivesSuffix(path: string, ext: string)
    requires Extension(path) == Some(ext)
    ensures EndsWithStem(path, "." + ext)
  {
    var name := FileName(path);
    var i := LastIndexOf(name, '.').value;
    DotSuffix(name, ext, i);
    StemFromName(path, name, "." + ext);
  }

  /** A dot after the first character of a name, followed by `ext` to the end, makes "." + `ext` a proper tail of the name. */
  lemma DotSuffix(name: string, ext: string, i: nat)
    requires 0 < i < |name| && name[i] == '.' && name[i + 1..] == ext
    ensures |"." + ext| < |name| && name[|name| - |"." + ext|..] == "." + ext
  {
    assert name[i..] == [name[i]] + name[i + 1..];
  }

  /** A proper tail of a separator-free final component ends the path after a stem. */
  lemma StemFromName(path: string, name: string, suffix: string)
    requires |name| <= |path| && path[|path| - |name|..] == name && '/' !in name
    requires |suffix| < |name| && name[|name| - |suffix|..] == suffix
    ensures EndsWithStem(path, suffix)
  {
    TailOfName(path, name, |suffix|);
    assert name[|name| - |suffix| - 1] in name;
  }

  /** The language of a path is that of its extension. */
  lemma LanguageByExtension(path: string, lang: string)
    requires LanguageOf(path) == Some(lang)
    ensures Extension(path).Some? && LanguageOfExtension(Extension(path).value) == Some(lang)
  {
  }

  /** The suffixes as string literals (a solver aid: it keeps the concatenations out of the
      detection proofs). */
  lemma DotLiterals()
    ensures "." + "rs" == ".rs" && "." + "sol" == ".sol"
  {
  }

  /** Exactly the paths ending in ".rs" after a non-empty stem are scanned as Rust. */
  lemma {:induction false} RustDetection(path: string)
    ensures LanguageOf(path) == Some(RustLanguage) <==> EndsWithStem(path, ".rs")
  {
    DotLiterals();
    if EndsWithStem(path, ".rs") {
      SuffixGivesExtension(path, "rs");
    }
    if LanguageOf(path) == Some(RustLanguage) {
      LanguageByExtension(path, RustLanguage);
      ExtensionGivesSuffix(path, "rs");
    }
  }

  /** Exactly the paths ending in ".sol" after a non-empty stem are scanned as Solidity-Ethereum. */
  lemma {:induction false} SolidityDetection(path: string)
    ensures LanguageOf(path) == Some(SolidityLanguage) <==> EndsWithStem(path, ".sol")
  {
    DotLiterals();
    if EndsWithStem(path, ".sol") {
      SuffixGivesExtension(path, "sol");
    }
    if LanguageOf(path) == Some(SolidityLanguage) {
      LanguageByExtension(path, SolidityLanguage);
      ExtensionGivesSuffix(path, "sol");
    }
  }

  /** Every path with any other ending is skipped, silently. */
  lemma {:induction false} SkippedPaths(path: string)
    ensures LanguageOf(path).None? <==> !EndsWithStem(path, ".rs") && !EndsWithStem(path, ".sol")
  {
    RustDetection(path);
    SolidityDetection(path);
  }
}
