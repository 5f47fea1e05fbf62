/** The purpose summary: candidates from several sources, the first of least priority wins, truncated at
    a word boundary. Text extraction from one file is an arbitrary function. */
module Purpose {
  import opened Base
  import opened Ordering
  import opened FirstOccurrences
  import opened GoFilter
  import opened IoLocations
  import Text

  /** The parsers of single files, and the text functions of the standard library they use. */
  datatype Extractors = Extractors(
    upper: string -> string,
    readmeProse: string -> Option<string>,
    packageJson: string -> Option<string>,
    pyproject: string -> Option<string>,
    pomXml: string -> Option<string>,
    pythonDocstring: string -> Option<string>,
    jsComment: string -> Option<string>,
    collapse: string -> string)

  datatype Candidate = Candidate(source: string, text: string, priority: int)

  const README_PRIORITY := 1
  const GITLAB_PRIORITY := 2
  const GOMOD_COMMENT_PRIORITY := 3
  const GOMOD_PATH_PRIORITY := 4
  const MANIFEST_PRIORITY := 5
  const DOCSTRING_PRIORITY := 6
  const PACKAGE_DOC_PRIORITY := 7

  const SUMMARY_MAX_LEN := 1000
  const UNKNOWN_SUMMARY := "unknown"
  const INSUFFICIENT_MATERIAL := "insufficient source material"

  // ---------------------------------------------------------------- reading a repository

  /** Python's truth of an optional string. */
  function NonEmpty(s: Option<string>): (r: Option<string>)
    ensures r.Some? ==> r.value != ""
  {
    if s == Some("") then None else s
  }

  function ReadText(files: Files, path: string): Option<string> {
    if path in files then Some(files[path]) else None
  }

  /** What the README scan takes from one path. */
  function ReadmeAt(ex: Extractors, files: Files, path: string): Option<string> {
    if !IsRootPath(path) || !Text.StartsWith(ex.upper(path), "README") || path !in files then None
    else NonEmpty(ex.readmeProse(files[path]))
  }

  predicate IsPythonTopLevel(path: string) {
    || (IsRootPath(path) && Text.EndsWith(path, ".py"))
    || (var parts := Text.Split(path, '/'); |parts| == 3 && parts[0] == "src" && parts[2] == "__init__.py")
  }

  predicate HasJsSuffix(path: string) {
    || Text.EndsWith(path, ".js") || Text.EndsWith(path, ".mjs") || Text.EndsWith(path, ".cjs")
    || Text.EndsWith(path, ".ts")
  }

  /** What the docstring scan takes from one path. */
  function DocstringAt(ex: Extractors, files: Files, path: string): Option<string> {
    if path !in files then None
    else if IsPythonTopLevel(path) then NonEmpty(ex.pythonDocstring(files[path]))
    else if IsRootPath(path) && HasJsSuffix(path) then NonEmpty(ex.jsComment(files[path]))
    else None
  }

  /** The first result a scan over `paths` finds. */
  function FirstSome(at: string -> Option<string>, paths: seq<string>): Option<string> {
    if paths == [] then None
    else
      var before := FirstSome(at, paths[..|paths| - 1]);
      if before.Some? then before else at(paths[|paths| - 1])
  }

  const MANIFEST_FILES := ["package.json", "pyproject.toml", "pom.xml"]

  /** What the manifest scan takes from one of its paths. */
  function ManifestAt(ex: Extractors, files: Files, path: string): Option<string> {
    if path !in files then None
    else if path == "package.json" then NonEmpty(ex.packageJson(files[path]))
    else if path == "pyproject.toml" then NonEmpty(ex.pyproject(files[path]))
    else NonEmpty(ex.pomXml(files[path]))
  }

  function Manifest(ex: Extractors, files: Files): Option<string> {
    FirstSome(p => ManifestAt(ex, files, p), MANIFEST_FILES)
  }

  ghost function Readme(ex: Extractors, files: Files): Option<string> {
    FirstSome(p => ReadmeAt(ex, files, p), SortedPaths(files))
  }

  ghost function Docstring(ex: Extractors, files: Files): Option<string> {
    FirstSome(p => DocstringAt(ex, files, p), SortedPaths(files))
  }

  function NormalizeDescription(ex: Extractors, description: Option<string>): Option<string> {
    if description.None? then None else NonEmpty(Some(ex.collapse(description.value)))
  }

  // ---------------------------------------------------------------- choosing

  function Offer(source: string, text: Option<string>, priority: int): seq<Candidate> {
    if text.Some? then [Candidate(source, text.value, priority)] else []
  }

  predicate PriorityLe(a: Candidate, b: Candidate) { a.priority <= b.priority }

  /** The position of the last `c`, or -1. */
  function RFind(s: string, c: char): (n: int)
    ensures -1 <= n < |s|
    ensures n >= 0 ==> s[n] == c
    ensures forall i :: n < i < |s| ==> s[i] != c
  {
    if s == "" then -1 else if s[|s| - 1] == c then |s| - 1 else RFind(s[..|s| - 1], c)
  }

  function Max(a: int, b: int): int { if a < b then b else a }

  function RStrip(s: string): (r: string)
    ensures r <= s
    ensures r != "" ==> !IsSpace(r[|r| - 1])
    ensures forall i :: |r| <= i < |s| ==> IsSpace(s[i])
  {
    if s == "" || !IsSpace(s[|s| - 1]) then s else RStrip(s[..|s| - 1])
  }

  predicate IsSeparator(c: char) { c == ' ' || c == '\t' || c == '\n' }

  /** The position of the last separator, or -1. */
  function LastWhitespace(cut: string): (last: int)
    ensures -1 <= last < |cut|
    ensures last >= 0 ==> IsSeparator(cut[last])
    ensures forall k :: last < k < |cut| ==> !IsSeparator(cut[k])
  {
    Max(RFind(cut, ' '), Max(RFind(cut, '\t'), RFind(cut, '\n')))
  }

  function Truncate(value: string): string {
    if |value| <= SUMMARY_MAX_LEN then value
    else
      var cut := value[..SUMMARY_MAX_LEN];
      var lastSpace := LastWhitespace(cut);
      if lastSpace > 0 && RStrip(cut[..lastSpace]) != "" then RStrip(cut[..lastSpace]) else cut
  }

  datatype Summary = Summary(text: string, reason: Option<string>)

  /** The head of the sorted candidates, or the unknown pair. */
  function Choose(candidates: seq<Candidate>): Summary {
    var sorted := Sort(candidates, PriorityLe);
    if sorted != [] then Summary(Truncate(sorted[0].text), None)
    else Summary(UNKNOWN_SUMMARY, Some(INSUFFICIENT_MATERIAL))
  }

  ghost function Candidates(ex: Extractors, files: Files): seq<Candidate> {
    Offer("readme", Readme(ex, files), README_PRIORITY) +
    Offer("manifest", Manifest(ex, files), MANIFEST_PRIORITY) +
    Offer("module_docstring", Docstring(ex, files), DOCSTRING_PRIORITY)
  }

  /** What the Go sub-analyzer offers. */
  datatype GoCandidates = GoCandidates(gomodComment: Option<string>, gomodPath: Option<string>,
        packageDoc: Option<string>)

  function GoOffers(go: GoCandidates): seq<Candidate> {
    Offer("gomod_comment", go.gomodComment, GOMOD_COMMENT_PRIORITY) +
    Offer("gomod_module_path", go.gomodPath, GOMOD_PATH_PRIORITY) +
    Offer("package_doc_comment", go.packageDoc, PACKAGE_DOC_PRIORITY)
  }

  ghost function SummaryOf(ex: Extractors, files: Files, description: Option<string>): Summary {
    Choose(Candidates(ex, files) + Offer("gitlab_description", NormalizeDescription(ex, description), GITLAB_PRIORITY))
  }

  /** The Go parser's output per file, as far as skipped files are concerned, and the candidates it
      leads to. */
  datatype GoAnalysis = GoAnalysis(skipReasons: map<string, seq<string>>, candidates: GoCandidates)

  const NO_GO := GoAnalysis(map[], GoCandidates(None, None, None))

  /** Skip entries of the eligible paths, in path order. */
  function SkipEntries(skipReasons: map<string, seq<string>>, eligible: string -> bool,
        paths: seq<string>): seq<string> {
    if paths == [] then []
    else
      var p := paths[|paths| - 1];
      SkipEntries(skipReasons, eligible, paths[..|paths| - 1]) +
      (if eligible(p) && p in skipReasons then
         seq(|skipReasons[p]|, i requires 0 <= i < |skipReasons[p]| =>
           "purpose: skipped " + p + " (" + skipReasons[p][i] + ")")
       else [])
  }

  ghost function SafeSummaryOf(ex: Extractors, files: Files, view: Files, description: Option<string>,
        go: GoAnalysis): Summary {
    Choose(Candidates(ex, view) + Offer("gitlab_description", NormalizeDescription(ex, description), GITLAB_PRIORITY)
           + if HasGoArtefacts(files) then GoOffers(go.candidates) else [])
  }

  // ---------------------------------------------------------------- the procedures

  lemma FirstSomeSnoc(at: string -> Option<string>, paths: seq<string>, i: nat)
    requires i < |paths| && FirstSome(at, paths[..i]).None?
    ensures FirstSome(at, paths[..i + 1]) == at(paths[i])
  {
    assert paths[..i + 1][..i] == paths[..i];
  }

  lemma {:induction false} FirstSomeStays(at: string -> Option<string>, paths: seq<string>, i: nat)
    requires i <= |paths| && FirstSome(at, paths[..i]).Some?
    ensures FirstSome(at, paths) == FirstSome(at, paths[..i])
    decreases |paths|
  {
    if i < |paths| {
      assert paths[..|paths| - 1][..i] == paths[..i];
      FirstSomeStays(at, paths[..|paths| - 1], i);
    } else {
      assert paths[..i] == paths;
    }
  }

  method ExtractReadme(ex: Extractors, files: Files) returns (r: Option<string>)
    ensures r == Readme(ex, files)
  {
    StringLeTotal();
    var paths := SortedList(files.Keys, StringLe);
    ghost var at := p => ReadmeAt(ex, files, p);
    for i := 0 to |paths|
      invariant FirstSome(at, paths[..i]).None?
    {
      FirstSomeSnoc(at, paths, i);
      var path := paths[i];
      if !IsRootPath(path) { continue; }
      if !Text.StartsWith(ex.upper(path), "README") { continue; }
      var text := ReadText(files, path);
      if text == None { continue; }
      var prose := NonEmpty(ex.readmeProse(text.value));
      if prose != None {
        FirstSomeStays(at, paths, i + 1);
        return prose;
      }
    }
    assert paths[..|paths|] == paths;
    return None;
  }

  method ExtractDocstring(ex: Extractors, files: Files) returns (r: Option<string>)
    ensures r == Docstring(ex, files)
  {
    StringLeTotal();
    var paths := SortedList(files.Keys, StringLe);
    ghost var at := p => DocstringAt(ex, files, p);
    for i := 0 to |paths|
      invariant FirstSome(at, paths[..i]).None?
    {
      FirstSomeSnoc(at, paths, i);
      var path := paths[i];
      var text := ReadText(files, path);
      if text == None { continue; }
      var extracted := None;
      if IsPythonTopLevel(path) {
        extracted := NonEmpty(ex.pythonDocstring(text.value));
      } else if IsRootPath(path) && HasJsSuffix(path) {
        extracted := NonEmpty(ex.jsComment(text.value));
      }
      if extracted != None {
        FirstSomeStays(at, paths, i + 1);
        return extracted;
      }
    }
    assert paths[..|paths|] == paths;
    return None;
  }

  method ExtractManifestDescription(ex: Extractors, files: Files) returns (r: Option<string>)
    ensures r == Manifest(ex, files)
  {
    ghost var at := p => ManifestAt(ex, files, p);
    for i := 0 to |MANIFEST_FILES|
      invariant FirstSome(at, MANIFEST_FILES[..i]).None?
    {
      FirstSomeSnoc(at, MANIFEST_FILES, i);
      var path := MANIFEST_FILES[i];
      var text := ReadText(files, path);
      if text == None { continue; }
      var result := None;
      if path == "package.json" {
        result := NonEmpty(ex.packageJson(text.value));
      } else if path == "pyproject.toml" {
        result := NonEmpty(ex.pyproject(text.value));
      } else {
        result := NonEmpty(ex.pomXml(text.value));
      }
      if result != None {
        FirstSomeStays(at, MANIFEST_FILES, i + 1);
        return result;
      }
    }
    assert MANIFEST_FILES[..|MANIFEST_FILES|] == MANIFEST_FILES;
    return None;
  }

  method CollectCandidates(ex: Extractors, files: Files) returns (candidates: seq<Candidate>)
    ensures candidates == Candidates(ex, files)
  {
    var readme := ExtractReadme(ex, files);
    candidates := Offer("readme", readme, README_PRIORITY);
    var manifest := ExtractManifestDescription(ex, files);
    candidates := candidates + Offer("manifest", manifest, MANIFEST_PRIORITY);
    var docstring := ExtractDocstring(ex, files);
    candidates := candidates + Offer("module_docstring", docstring, DOCSTRING_PRIORITY);
  }

  method SummarizePurpose(ex: Extractors, files: Files, description: Option<string>) returns (r: Summary)
    ensures r == SummaryOf(ex, files, description)
  {
    var candidates := CollectCandidates(ex, files);
    var gitlab := NormalizeDescription(ex, description);
    candidates := candidates + Offer("gitlab_description", gitlab, GITLAB_PRIORITY);
    r := PickBest(candidates);
  }

  /** Sort in place, take the head. */
  method PickBest(candidates: seq<Candidate>) returns (r: Summary)
    ensures r == Choose(candidates)
  {
    var sorted := Sort(candidates, PriorityLe);
    if sorted != [] { return Summary(Truncate(sorted[0].text), None); }
    return Summary(UNKNOWN_SUMMARY, Some(INSUFFICIENT_MATERIAL));
  }

  /** `_safe_purpose`, when every sub-analyzer returns. `degraded` is what it appends. */
  method SafePurpose(ex: Extractors, files: Files, view: Files, description: Option<string>, go: GoAnalysis,
        eligible: string -> bool)
    returns (r: Summary, degraded: seq<string>)
    ensures r == SafeSummaryOf(ex, files, view, description, go)
    ensures degraded == SkipEntries(go.skipReasons, eligible, SortedKeys(go.skipReasons))
  {
    var candidates := CollectCandidates(ex, view);
    var gitlab := NormalizeDescription(ex, description);
    candidates := candidates + Offer("gitlab_description", gitlab, GITLAB_PRIORITY);
    if HasGoArtefacts(files) {
      candidates := candidates + GoOffers(go.candidates);
    } else {
      assert candidates + [] == candidates;
    }
    StringLeTotal();
    var paths := SortedList(go.skipReasons.Keys, StringLe);
    degraded := SkipEntries(go.skipReasons, eligible, paths);
    r := PickBest(candidates);
  }

  ghost function SortedKeys<V>(m: map<string, V>): seq<string> {
    StringLeTotal();
    SortedSet(m.Keys, StringLe)
  }

  /** The purpose section of one analysis: the Go parser runs only on repositories with Go artefacts. */
  method AnalyzePurpose(ex: Extractors, parse: Files -> GoAnalysis, eligible: string -> bool, files: Files,
        description: Option<string>)
    returns (r: Summary, degraded: seq<string>)
    ensures var go := if HasGoArtefacts(files) then parse(files) else NO_GO;
            && r == SafeSummaryOf(ex, files, WithoutVendoredGo(files), description, go)
            && degraded == SkipEntries(go.skipReasons, eligible, SortedKeys(go.skipReasons))
  {
    var go := if HasGoArtefacts(files) then parse(files) else NO_GO;
    r, degraded := SafePurpose(ex, files, WithoutVendoredGo(files), description, go, eligible);
  }

  // ---------------------------------------------------------------- the vendor view hides nothing

  /** Dropping paths at which a scan finds nothing does not change what it finds. */
  lemma {:induction false} FirstSomeFiltered(at: string -> Option<string>, keep: string -> bool, paths: seq<string>)
    requires forall p :: p in paths && !keep(p) ==> at(p).None?
    ensures FirstSome(at, Filter(keep, paths)) == FirstSome(at, paths)
  {
    if paths != [] {
      var n := |paths| - 1;
      FirstSomeFiltered(at, keep, paths[..n]);
      if keep(paths[n]) {
        assert Filter(keep, paths) == Filter(keep, paths[..n]) + [paths[n]];
        assert Filter(keep, paths)[..|Filter(keep, paths)| - 1] == Filter(keep, paths[..n]);
      }
    }
  }

  lemma {:induction false} FirstSomeSame(at: string -> Option<string>, at': string -> Option<string>,
        paths: seq<string>)
    requires forall p :: p in paths ==> at(p) == at'(p)
    ensures FirstSome(at, paths) == FirstSome(at', paths)
  {
    if paths != [] { FirstSomeSame(at, at', paths[..|paths| - 1]); }
  }

  lemma LastCharacter(s: string, suffix: string)
    requires suffix != ""
    ensures Text.EndsWith(s, suffix) ==> s != "" && s[|s| - 1] == suffix[|suffix| - 1]
  {
    assert |suffix| <= |s| ==> s[|s| - |suffix|..][|suffix| - 1] == s[|s| - 1];
  }

  /** No path the docstring scan reads is a vendored Go file. */
  lemma VendoredIsNotPython(path: string)
    requires IsVendoredGoPath(path)
    ensures !IsPythonTopLevel(path)
  {
    VendoredIsNotRoot(path);
    LastPart(path, '/');
    LastCharacter(path, ".go");
    LastCharacter(path, "__init__.py");
    LastCharacter(path, ".py");
  }

  lemma ViewHidesNoReadme(ex: Extractors, files: Files)
    ensures Readme(ex, WithoutVendoredGo(files)) == Readme(ex, files)
  {
    var view := WithoutVendoredGo(files);
    var at, at' := (p => ReadmeAt(ex, files, p)), (p => ReadmeAt(ex, view, p));
    ViewKeepsOrder(files);
    forall p | !Kept()(p) ensures at(p).None? { VendoredIsNotRoot(p); }
    FirstSomeFiltered(at, Kept(), SortedPaths(files));
    FilterElements(Kept(), SortedPaths(files));
    FirstSomeSame(at, at', Filter(Kept(), SortedPaths(files)));
  }

  lemma ViewHidesNoDocstring(ex: Extractors, files: Files)
    ensures Docstring(ex, WithoutVendoredGo(files)) == Docstring(ex, files)
  {
    var view := WithoutVendoredGo(files);
    var at, at' := (p => DocstringAt(ex, files, p)), (p => DocstringAt(ex, view, p));
    ViewKeepsOrder(files);
    forall p | !Kept()(p) ensures at(p).None? {
      VendoredIsNotRoot(p);
      VendoredIsNotPython(p);
    }
    FirstSomeFiltered(at, Kept(), SortedPaths(files));
    FilterElements(Kept(), SortedPaths(files));
    FirstSomeSame(at, at', Filter(Kept(), SortedPaths(files)));
  }

  lemma ViewHidesNoManifest(ex: Extractors, files: Files)
    ensures Manifest(ex, WithoutVendoredGo(files)) == Manifest(ex, files)
  {
    var at, at' := (p => ManifestAt(ex, files, p)), (p => ManifestAt(ex, WithoutVendoredGo(files), p));
    forall p | p in MANIFEST_FILES ensures at(p) == at'(p) {
      LastCharacter(p, ".go");
    }
    FirstSomeSame(at, at', MANIFEST_FILES);
  }

  /** The summarizer reads the same candidates from the vendor view as from the whole repository, Go
      artefacts or not. */
  lemma VendorViewHidesNothing(ex: Extractors, files: Files)
    ensures Candidates(ex, WithoutVendoredGo(files)) == Candidates(ex, files)
  {
    ViewHidesNoReadme(ex, files);
    ViewHidesNoDocstring(ex, files);
    ViewHidesNoManifest(ex, files);
  }

  /** Without Go artefacts, vendored Go files notwithstanding, the purpose section is what the plain
      summarizer gives, and nothing is degraded. */
  lemma WithoutGoPurposeIsUnchanged(ex: Extractors, eligible: string -> bool, files: Files, description: Option<string>)
    requires !HasGoArtefacts(files)
    ensures SafeSummaryOf(ex, files, WithoutVendoredGo(files), description, NO_GO) == SummaryOf(ex, files, description)
    ensures SkipEntries(NO_GO.skipReasons, eligible, SortedKeys(NO_GO.skipReasons)) == []
  {
    VendorViewHidesNothing(ex, files);
    var candidates :=
      Candidates(ex, files) + Offer("gitlab_description", NormalizeDescription(ex, description), GITLAB_PRIORITY);
    assert candidates + [] == candidates;
    StringLeTotal();
    EmptyElements(SortedKeys(NO_GO.skipReasons));
  }

  // ---------------------------------------------------------------- what each source is, in plain terms

  /** Nothing is offered before position `i`, and there `v` is. */
  ghost predicate FirstOffer(at: string -> Option<string>, paths: seq<string>, i: nat, v: string) {
    i < |paths| && at(paths[i]) == Some(v) && forall k :: 0 <= k < i ==> at(paths[k]).None?
  }

  lemma {:induction false} FirstSomeMeaning(at: string -> Option<string>, paths: seq<string>)
    ensures forall v :: FirstSome(at, paths) == Some(v) <==> exists i: nat :: FirstOffer(at, paths, i, v)
    ensures FirstSome(at, paths).None? <==> forall i :: 0 <= i < |paths| ==> at(paths[i]).None?
  {
    if paths != [] {
      var n := |paths| - 1;
      var front := paths[..n];
      FirstSomeMeaning(at, front);
      assert forall i :: 0 <= i < n ==> front[i] == paths[i];
      forall v ensures FirstSome(at, paths) == Some(v) <==> exists i: nat :: FirstOffer(at, paths, i, v) {
        if i: nat :| FirstOffer(at, front, i, v) { assert FirstOffer(at, paths, i, v); }
        if i: nat :| FirstOffer(at, paths, i, v) {
          if i < n { assert FirstOffer(at, front, i, v); }
        }
        if FirstSome(at, front).None? && at(paths[n]) == Some(v) { assert FirstOffer(at, paths, n, v); }
      }
    }
  }

  /** The file at `p` offers `v`, and none before it in the order of paths offers anything. */
  ghost predicate FirstFile(files: Files, offers: (string, string) -> bool, p: string, v: string) {
    && p in files && offers(p, v)
    && forall q, w :: q in files && q != p && StringLe(q, p) ==> !offers(q, w)
  }

  lemma EarlierInOrder(paths: seq<string>, i: nat, k: nat)
    requires Ascending(paths, StringLe) && i < |paths| && k < |paths|
    requires StringLe(paths[k], paths[i]) && paths[k] != paths[i]
    ensures k < i
  {
    if i < k { StringLeAntisymmetric(paths[i], paths[k]); }
  }

  /** A scan over the files in path order finds what the first file to offer something offers. */
  lemma ScanFindsFirstFile(files: Files, at: string -> Option<string>, offers: (string, string) -> bool, v: string)
    requires forall p, w :: p in files ==> (at(p) == Some(w) <==> offers(p, w))
    ensures FirstSome(at, SortedPaths(files)) == Some(v) <==> exists p :: FirstFile(files, offers, p, v)
  {
    var paths := SortedPaths(files);
    FirstSomeMeaning(at, paths);
    StringLeTotal();
    assert forall i :: 0 <= i < |paths| ==> paths[i] in Elements(paths);
    if i: nat :| FirstOffer(at, paths, i, v) {
      forall q, w | q in files && q != paths[i] && StringLe(q, paths[i]) ensures !offers(q, w) {
        assert q in Elements(paths);
        var k :| 0 <= k < |paths| && paths[k] == q;
        EarlierInOrder(paths, i, k);
      }
      assert FirstFile(files, offers, paths[i], v);
    }
    if p :| FirstFile(files, offers, p, v) {
      assert p in Elements(paths);
      var i: nat :| i < |paths| && paths[i] == p;
      forall k | 0 <= k < i ensures at(paths[k]).None? {
        assert StringLe(paths[k], p) && paths[k] != p;
        forall w ensures at(paths[k]) != Some(w) { assert !offers(paths[k], w); }
      }
      assert FirstOffer(at, paths, i, v);
    }
  }

  /** At the repository root, under either slash. */
  predicate AtRoot(p: string) {
    forall i :: 0 <= i < |p| ==> p[i] != '/' && p[i] != '\\'
  }

  /** A file at the root whose name, in capitals, starts with README, with prose `v`. */
  ghost predicate ReadmeOffers(ex: Extractors, files: Files, p: string, v: string) {
    && p in files && AtRoot(p)
    && |ex.upper(p)| >= 6 && ex.upper(p)[..6] == "README"
    && ex.readmeProse(files[p]) == Some(v) && v != ""
  }

  ghost function ReadmesIn(ex: Extractors, files: Files): (string, string) -> bool {
    (p, v) => ReadmeOffers(ex, files, p, v)
  }

  /** The README text is the prose of the first such file that has any. */
  lemma ReadmeMeaning(ex: Extractors, files: Files, v: string)
    ensures Readme(ex, files) == Some(v) <==> exists p :: FirstFile(files, ReadmesIn(ex, files), p, v)
  {
    ScanFindsFirstFile(files, p => ReadmeAt(ex, files, p), ReadmesIn(ex, files), v);
  }

  /** A Python file at the root, or the `__init__.py` of a package directly under `src`. */
  ghost predicate PythonTop(p: string) {
    || (AtRoot(p) && |p| >= 3 && p[|p| - 3..] == ".py")
    || exists package: string :: '/' !in package && p == "src" + "/" + package + "/" + "__init__.py"
  }

  predicate ScriptAtRoot(p: string) {
    AtRoot(p) && (Text.EndsWith(p, ".js") || Text.EndsWith(p, ".mjs") || Text.EndsWith(p, ".cjs")
      || Text.EndsWith(p, ".ts"))
  }

  ghost predicate DocstringOffers(ex: Extractors, files: Files, p: string, v: string) {
    && p in files && v != ""
    && if PythonTop(p) then ex.pythonDocstring(files[p]) == Some(v)
       else ScriptAtRoot(p) && ex.jsComment(files[p]) == Some(v)
  }

  ghost function DocstringsIn(ex: Extractors, files: Files): (string, string) -> bool {
    (p, v) => DocstringOffers(ex, files, p, v)
  }

  /** The docstring is that of the first top-level Python file, or the leading comment of the first script
      at the root, whichever comes first in the order of paths. */
  lemma DocstringMeaning(ex: Extractors, files: Files, v: string)
    ensures Docstring(ex, files) == Some(v) <==>
            exists p :: FirstFile(files, DocstringsIn(ex, files), p, v)
  {
    forall p, w | p in files ensures DocstringAt(ex, files, p) == Some(w) <==> DocstringOffers(ex, files, p, w) {
      PythonTopIff(p);
    }
    ScanFindsFirstFile(files, p => DocstringAt(ex, files, p), DocstringsIn(ex, files), v);
  }

  lemma PythonTopIff(p: string)
    ensures IsPythonTopLevel(p) <==> PythonTop(p)
  {
    ThreePartsIff(p, "src", "__init__.py");
  }

  /** Three parts with given ends: a middle without slashes between them. */
  lemma ThreePartsIff(p: string, first: string, last: string)
    requires '/' !in first && '/' !in last
    ensures (var parts := Text.Split(p, '/'); |parts| == 3 && parts[0] == first && parts[2] == last) <==>
            exists middle: string :: '/' !in middle && p == first + "/" + middle + "/" + last
  {
    if middle: string :| '/' !in middle && p == first + "/" + middle + "/" + last {
      ThreeParts(first, middle, last);
    }
    var parts := Text.Split(p, '/');
    if |parts| == 3 && parts[0] == first && parts[2] == last {
      ThreeJoined(p);
      PartsHaveNoSlash(p);
      assert parts[1] in parts;
    }
  }

  lemma ThreeParts(first: string, middle: string, last: string)
    requires '/' !in first && '/' !in middle && '/' !in last
    ensures Text.Split(first + "/" + middle + "/" + last, '/') == [first, middle, last]
  {
    var rest := middle + "/" + last;
    var p := first + "/" + rest;
    assert p == first + "/" + middle + "/" + last;
    assert p[..|first|] == first && p[|first| + 1..] == rest;
    SplitAtFirst(p, |first|);
    assert rest[..|middle|] == middle && rest[|middle| + 1..] == last;
    SplitAtFirst(rest, |middle|);
    SplitOfPlain(last, '/');
  }

  lemma {:induction false} PartsHaveNoSlash(p: string)
    ensures forall part :: part in Text.Split(p, '/') ==> '/' !in part
  {
    if p != "" {
      PartsHaveNoSlash(p[1..]);
      var rest := Text.Split(p[1..], '/');
      assert rest[0] in rest && forall part :: part in rest[1..] ==> part in rest;
    }
  }

  /** The first part ends at the first slash, and the others are the parts of what follows it. */
  lemma SplitTail(p: string) returns (k: nat)
    requires |Text.Split(p, '/')| > 1
    ensures k < |p| && p == p[..k] + "/" + p[k + 1..]
    ensures Text.Split(p, '/') == [p[..k]] + Text.Split(p[k + 1..], '/')
  {
    if '/' !in p { SplitOfPlain(p, '/'); }
    k := FirstSlash(p);
    SplitAtFirst(p, k);
  }

  lemma ThreeJoined(p: string)
    requires |Text.Split(p, '/')| == 3
    ensures var parts := Text.Split(p, '/'); p == parts[0] + "/" + parts[1] + "/" + parts[2]
  {
    var k := SplitTail(p);
    var rest := p[k + 1..];
    var l := SplitTail(rest);
    assert |Text.Split(rest[l + 1..], '/')| == 1;
    SplitSingle(rest[l + 1..], '/');
    var parts := Text.Split(p, '/');
    assert parts[0] == p[..k] && parts[1] == rest[..l] && parts[2] == rest[l + 1..];
    assert p[..k] + "/" + (rest[..l] + "/" + rest[l + 1..]) == p[..k] + "/" + rest[..l] + "/" + rest[l + 1..];
  }

  /** What the manifest called `name` describes, if it is there and describes anything. */
  function Described(files: Files, name: string, read: string -> Option<string>): Option<string> {
    if name in files && read(files[name]) != Some("") then read(files[name]) else None
  }

  /** Of the three manifests the first that describes anything, each read by its own parser. */
  lemma ManifestMeaning(ex: Extractors, files: Files)
    ensures var package, pyproject, pom := Described(files, "package.json", ex.packageJson),
                                           Described(files, "pyproject.toml", ex.pyproject),
                                           Described(files, "pom.xml", ex.pomXml);
            Manifest(ex, files) == if package.Some? then package else if pyproject.Some? then pyproject else pom
  {
    var at := p => ManifestAt(ex, files, p);
    assert MANIFEST_FILES[..2][..1] == [MANIFEST_FILES[0]] && MANIFEST_FILES[..1][..0] == [];
    assert FirstSome(at, MANIFEST_FILES[..1]) == at("package.json");
    assert FirstSome(at, MANIFEST_FILES[..2]) ==
           if at("package.json").Some? then at("package.json") else at("pyproject.toml");
  }

  /** The entries about skipped files: one for each reason of each eligible file. */
  lemma {:induction false} SkipEntriesMeaning(skipReasons: map<string, seq<string>>, eligible: string -> bool,
        paths: seq<string>, entry: string)
    ensures entry in SkipEntries(skipReasons, eligible, paths) <==>
            exists p, reason :: p in paths && Skipped(skipReasons, eligible, p, reason, entry)
  {
    if paths != [] {
      var n := |paths| - 1;
      var front, p := paths[..n], paths[n];
      assert paths == front + [p];
      SkipEntriesMeaning(skipReasons, eligible, front, entry);
      var before := SkipEntries(skipReasons, eligible, front);
      var all := SkipEntries(skipReasons, eligible, paths);
      assert entry in before ==> entry in all;
      if reason :| Skipped(skipReasons, eligible, p, reason, entry) {
        var i :| 0 <= i < |skipReasons[p]| && skipReasons[p][i] == reason;
        assert all[|before| + i] == entry;
      }
      if entry in all && entry !in before {
        var i :| 0 <= i < |all| && all[i] == entry;
        forall q | 0 <= q < |before| ensures all[q] != entry { assert before[q] in before; }
        assert Skipped(skipReasons, eligible, p, skipReasons[p][i - |before|], entry);
      }
    }
  }

  /** The entries about one file, in the order of its reasons. */
  function EntriesAbout(skipReasons: map<string, seq<string>>, eligible: string -> bool, p: string): (r: seq<string>)
    ensures |r| == if p in skipReasons && eligible(p) then |skipReasons[p]| else 0
    ensures forall i :: 0 <= i < |r| ==> r[i] == "purpose: skipped " + p + " (" + skipReasons[p][i] + ")"
  {
    if p !in skipReasons || !eligible(p) then []
    else
      seq(|skipReasons[p]|, i requires 0 <= i < |skipReasons[p]| =>
        "purpose: skipped " + p + " (" + skipReasons[p][i] + ")")
  }

  function EntriesByPath(skipReasons: map<string, seq<string>>, eligible: string -> bool, paths: seq<string>)
    : (r: seq<seq<string>>)
    ensures |r| == |paths|
    ensures forall i :: 0 <= i < |r| ==> r[i] == EntriesAbout(skipReasons, eligible, paths[i])
  {
    seq(|paths|, i requires 0 <= i < |paths| => EntriesAbout(skipReasons, eligible, paths[i]))
  }

  /** They stand file by file in the order of paths, within a file in the order of its reasons. */
  lemma {:induction false} SkipEntriesInOrder(skipReasons: map<string, seq<string>>, eligible: string -> bool,
        paths: seq<string>)
    ensures SkipEntries(skipReasons, eligible, paths) == Flatten(EntriesByPath(skipReasons, eligible, paths))
  {
    if paths != [] {
      var n := |paths| - 1;
      SkipEntriesInOrder(skipReasons, eligible, paths[..n]);
      var all := EntriesByPath(skipReasons, eligible, paths);
      assert all[..n] == EntriesByPath(skipReasons, eligible, paths[..n]);
    }
  }

  ghost predicate Skipped(skipReasons: map<string, seq<string>>, eligible: string -> bool, p: string, reason: string,
        entry: string)
  {
    && p in skipReasons && eligible(p) && reason in skipReasons[p]
    && entry == "purpose: skipped " + p + " (" + reason + ")"
  }

  // ---------------------------------------------------------------- the winner

  /** Position `i` holds the first candidate of least priority. */
  ghost predicate FirstLeast(candidates: seq<Candidate>, i: nat) {
    && i < |candidates|
    && (forall k :: 0 <= k < i ==> candidates[k].priority > candidates[i].priority)
    && (forall k :: i <= k < |candidates| ==> candidates[k].priority >= candidates[i].priority)
  }

  lemma InsertHead(x: Candidate, xs: seq<Candidate>)
    requires SortedBy(xs, PriorityLe)
    ensures Insert(x, xs, PriorityLe) != []
    ensures Insert(x, xs, PriorityLe)[0] == if xs != [] && PriorityLe(xs[0], x) then xs[0] else x
    decreases |xs|
  {
    if xs != [] {
      var n := |xs| - 1;
      if !PriorityLe(xs[n], x) {
        InsertHead(x, xs[..n]);
      } else {
        assert n == 0 || PriorityLe(xs[0], xs[n]);
      }
    }
  }

  /** The head of the sorted list is the first candidate of least priority. */
  lemma {:induction false} SortHead(candidates: seq<Candidate>) returns (i: nat)
    requires candidates != []
    ensures FirstLeast(candidates, i)
    ensures Sort(candidates, PriorityLe) != [] && Sort(candidates, PriorityLe)[0] == candidates[i]
  {
    var n := |candidates| - 1;
    var front, x := candidates[..n], candidates[n];
    SortFacts(front, PriorityLe);
    InsertHead(x, Sort(front, PriorityLe));
    if n == 0 { return 0; }
    var k := SortHead(front);
    i := if candidates[k].priority <= x.priority then k else n;
    FirstLeastExtends(candidates, k, i);
  }

  lemma FirstLeastExtends(candidates: seq<Candidate>, k: nat, i: nat)
    requires |candidates| > 1 && FirstLeast(candidates[..|candidates| - 1], k)
    requires i == if candidates[k].priority <= candidates[|candidates| - 1].priority then k else |candidates| - 1
    ensures FirstLeast(candidates, i)
  {
    var front := candidates[..|candidates| - 1];
    assert forall j :: 0 <= j < |front| ==> front[j] == candidates[j];
  }

  /** The summary is the truncated text of the first candidate of least priority; the unknown pair
      exactly when there is no candidate. */
  lemma WinnerIsFirstOfLeastPriority(candidates: seq<Candidate>)
    ensures candidates == [] ==> Choose(candidates) == Summary(UNKNOWN_SUMMARY, Some(INSUFFICIENT_MATERIAL))
    ensures candidates != [] ==>
              exists i: nat ::
                FirstLeast(candidates, i) && Choose(candidates) == Summary(Truncate(candidates[i].text), None)
  {
    if candidates != [] {
      var i := SortHead(candidates);
    }
  }

  /** The sources in order of precedence. */
  function ByPrecedence(readme: Option<string>, gitlab: Option<string>, go: GoCandidates, manifest: Option<string>,
        docstring: Option<string>)
    : seq<Candidate>
  {
    Offer("readme", readme, README_PRIORITY) + Offer("gitlab_description", gitlab, GITLAB_PRIORITY) +
    Offer("gomod_comment", go.gomodComment, GOMOD_COMMENT_PRIORITY) +
    Offer("gomod_module_path", go.gomodPath, GOMOD_PATH_PRIORITY) +
    Offer("manifest", manifest, MANIFEST_PRIORITY) + Offer("module_docstring", docstring, DOCSTRING_PRIORITY) +
    Offer("package_doc_comment", go.packageDoc, PACKAGE_DOC_PRIORITY)
  }

  lemma HeadIsLeastIn(candidates: seq<Candidate>, c: Candidate)
    requires c in candidates && forall d :: d in candidates ==> d == c || d.priority > c.priority
    ensures Choose(candidates) == Summary(Truncate(c.text), None)
  {
    var i := SortHead(candidates);
    var k :| 0 <= k < |candidates| && candidates[k] == c;
    assert candidates[i] in candidates;
  }

  /** With Go artefacts the seven sources win in the documented order, whatever order they were
      collected in: the summary is that of the first source in precedence that offers anything. */
  lemma GoSourcesInterleave(ex: Extractors, files: Files, view: Files, description: Option<string>, go: GoAnalysis)
    requires HasGoArtefacts(files)
    ensures var ordered := ByPrecedence(Readme(ex, view), NormalizeDescription(ex, description), go.candidates,
                                        Manifest(ex, view), Docstring(ex, view));
            SafeSummaryOf(ex, files, view, description, go) ==
            if ordered == [] then Summary(UNKNOWN_SUMMARY, Some(INSUFFICIENT_MATERIAL))
            else Summary(Truncate(ordered[0].text), None)
  {
    var readme, gitlab, manifest, docstring :=
      Readme(ex, view), NormalizeDescription(ex, description), Manifest(ex, view), Docstring(ex, view);
    var collected :=
      Candidates(ex, view) + Offer("gitlab_description", gitlab, GITLAB_PRIORITY) + GoOffers(go.candidates);
    var ordered := ByPrecedence(readme, gitlab, go.candidates, manifest, docstring);
    CollectedInAnyOrder(readme, gitlab, go.candidates, manifest, docstring);
    if ordered != [] {
      assert ordered[0] in ordered;
      HeadIsLeastIn(collected, ordered[0]);
    }
  }

  /** Without the Go sources the other four win in the documented order: README, the description with its
      whitespace collapsed, manifest, docstring. */
  lemma PlainSourcesInterleave(ex: Extractors, files: Files, description: Option<string>)
    ensures var described := if description.None? || ex.collapse(description.value) == "" then None
                             else Some(ex.collapse(description.value));
            SummaryOf(ex, files, description) ==
            if Readme(ex, files).Some? then Summary(Truncate(Readme(ex, files).value), None)
            else if described.Some? then Summary(Truncate(described.value), None)
            else if Manifest(ex, files).Some? then Summary(Truncate(Manifest(ex, files).value), None)
            else if Docstring(ex, files).Some? then Summary(Truncate(Docstring(ex, files).value), None)
            else Summary("unknown", Some("insufficient source material"))
  {
    var readme, gitlab, manifest, docstring :=
      Readme(ex, files), NormalizeDescription(ex, description), Manifest(ex, files), Docstring(ex, files);
    var none := GoCandidates(None, None, None);
    var collected := Candidates(ex, files) + Offer("gitlab_description", gitlab, GITLAB_PRIORITY);
    var ordered := ByPrecedence(readme, gitlab, none, manifest, docstring);
    assert collected + GoOffers(none) == collected;
    CollectedInAnyOrder(readme, gitlab, none, manifest, docstring);
    if ordered != [] {
      assert ordered[0] in ordered;
      HeadIsLeastIn(collected, ordered[0]);
    }
  }

  lemma CollectedInAnyOrder(readme: Option<string>, gitlab: Option<string>, go: GoCandidates,
        manifest: Option<string>, docstring: Option<string>)
    ensures var collected := Offer("readme", readme, README_PRIORITY) + Offer("manifest", manifest, MANIFEST_PRIORITY) +
                             Offer("module_docstring", docstring, DOCSTRING_PRIORITY) +
                             Offer("gitlab_description", gitlab, GITLAB_PRIORITY) + GoOffers(go);
            var ordered := ByPrecedence(readme, gitlab, go, manifest, docstring);
            && (collected == [] <==> ordered == [])
            && (forall c :: c in collected <==> c in ordered)
            && (forall c :: c in ordered ==> c == ordered[0] || c.priority > ordered[0].priority)
  {}

  // ---------------------------------------------------------------- truncation

  /** Truncation keeps a prefix of at most the cap; when it cuts below the cap it cuts at whitespace and
      leaves none behind; it never empties a text, and truncating again changes nothing. */
  lemma TruncateMeaning(value: string)
    ensures var r := Truncate(value);
            && r <= value && |r| <= SUMMARY_MAX_LEN
            && (value != "" ==> r != "")
            && (|value| <= SUMMARY_MAX_LEN ==> r == value)
            && (|value| > SUMMARY_MAX_LEN && |r| < SUMMARY_MAX_LEN ==> IsSpace(value[|r|]) && !IsSpace(r[|r| - 1]))
            && Truncate(r) == r
  {}

  /** Within the cap a separator follows a visible character. */
  ghost predicate HasSeparatedWord(value: string)
    requires |value| > SUMMARY_MAX_LEN
  {
    exists i, k :: 0 <= i < k < SUMMARY_MAX_LEN && !IsSpace(value[i]) && IsSeparator(value[k])
  }

  ghost predicate LastSeparator(value: string, last: nat)
    requires |value| > SUMMARY_MAX_LEN
  {
    && last < SUMMARY_MAX_LEN && IsSeparator(value[last])
    && forall k :: last < k < SUMMARY_MAX_LEN ==> !IsSeparator(value[k])
  }

  /** The prefix before the last separator within the cap, less the whitespace at its end. */
  ghost predicate EndsBefore(value: string, last: nat, r: string)
    requires |value| > SUMMARY_MAX_LEN && last < SUMMARY_MAX_LEN
  {
    && r <= value && 0 < |r| <= last && !IsSpace(value[|r| - 1])
    && forall i :: |r| <= i < last ==> IsSpace(value[i])
  }

  /** What an over-long text may be cut to. */
  ghost predicate CutOf(value: string, r: string)
    requires |value| > SUMMARY_MAX_LEN
  {
    if HasSeparatedWord(value) then exists last: nat :: LastSeparator(value, last) && EndsBefore(value, last, r)
    else r == value[..SUMMARY_MAX_LEN]
  }

  lemma RStripEmptyIff(s: string)
    ensures RStrip(s) == "" <==> forall i :: 0 <= i < |s| ==> IsSpace(s[i])
  {
    if RStrip(s) != "" { assert s[|RStrip(s)| - 1] == RStrip(s)[|RStrip(s)| - 1]; }
  }

  lemma SeparatedWordIff(value: string, last: int)
    requires |value| > SUMMARY_MAX_LEN && last == LastWhitespace(value[..SUMMARY_MAX_LEN])
    ensures HasSeparatedWord(value) <==> last > 0 && RStrip(value[..last]) != ""
  {
    var cut := value[..SUMMARY_MAX_LEN];
    assert forall k :: 0 <= k < |cut| ==> cut[k] == value[k];
    if last > 0 {
      RStripEmptyIff(value[..last]);
      assert IsSeparator(value[last]);
    }
  }

  lemma StrippedEndsBefore(value: string, last: nat)
    requires |value| > SUMMARY_MAX_LEN && last < SUMMARY_MAX_LEN && RStrip(value[..last]) != ""
    ensures EndsBefore(value, last, RStrip(value[..last]))
  {
    var head := value[..last];
    var r := RStrip(head);
    assert head <= value;
    assert r[|r| - 1] == value[|r| - 1];
    assert forall i :: 0 <= i < last ==> head[i] == value[i];
  }

  /** The cut is before the last separator within the cap, where a word stands before it. */
  lemma TruncateCuts(value: string)
    requires |value| > SUMMARY_MAX_LEN
    ensures CutOf(value, Truncate(value))
  {
    var cut := value[..SUMMARY_MAX_LEN];
    var last := LastWhitespace(cut);
    SeparatedWordIff(value, last);
    if last > 0 {
      assert cut[..last] == value[..last];
      if RStrip(value[..last]) != "" {
        StrippedEndsBefore(value, last);
        assert LastSeparator(value, last);
      }
    }
  }

  lemma NoLonger(value: string, last: nat, r: string, t: string)
    requires |value| > SUMMARY_MAX_LEN && last < SUMMARY_MAX_LEN && EndsBefore(value, last, r)
             && EndsBefore(value, last, t)
    ensures |r| <= |t|
  {
    assert !IsSpace(value[|r| - 1]);
  }

  /** Nothing else may: the cut of an over-long text is determined. */
  lemma TruncateIsTheCut(value: string, r: string)
    requires |value| > SUMMARY_MAX_LEN
    ensures r == Truncate(value) <==> CutOf(value, r)
  {
    TruncateCuts(value);
    if CutOf(value, r) && HasSeparatedWord(value) {
      var t := Truncate(value);
      var a: nat :| LastSeparator(value, a) && EndsBefore(value, a, r);
      var b: nat :| LastSeparator(value, b) && EndsBefore(value, b, t);
      assert a == b;
      NoLonger(value, a, r, t);
      NoLonger(value, a, t, r);
      assert r == value[..|r|] && t == value[..|t|];
    }
  }

  /** Position `n` lies inside a word. */
  predicate InsideWord(value: string, n: nat) {
    0 < n < |value| && !IsSpace(value[n - 1]) && !IsSpace(value[n])
  }

  /** A word ends at position `n`. */
  predicate WordEnd(value: string, n: nat) {
    0 < n <= |value| && !IsSpace(value[n - 1]) && (n == |value| || IsSpace(value[n]))
  }

  /** A word is split exactly when the cap falls inside one and no separated word stands before it. */
  lemma WordSplitIff(value: string)
    ensures InsideWord(value, |Truncate(value)|) <==>
            |value| > SUMMARY_MAX_LEN && InsideWord(value, SUMMARY_MAX_LEN) && !HasSeparatedWord(value)
  {
    if |value| > SUMMARY_MAX_LEN {
      TruncateCuts(value);
      if HasSeparatedWord(value) {
        var r := Truncate(value);
        var last: nat :| LastSeparator(value, last) && EndsBefore(value, last, r);
        assert IsSpace(value[|r|]);
      }
    }
  }

  /** A word that fits is lost exactly when one ends within the cap with no separator between its end
      and the cap, and a separated word stands in the text. */
  lemma WordLostIff(value: string)
    ensures (exists n :: |Truncate(value)| < n <= SUMMARY_MAX_LEN && WordEnd(value, n)) <==>
            && |value| > SUMMARY_MAX_LEN && HasSeparatedWord(value)
            && exists n :: 0 < n <= SUMMARY_MAX_LEN && WordEnd(value, n)
                           && forall k :: n <= k < SUMMARY_MAX_LEN ==> !IsSeparator(value[k])
  {
    if |value| > SUMMARY_MAX_LEN {
      TruncateCuts(value);
      if HasSeparatedWord(value) {
        var r := Truncate(value);
        var last: nat :| LastSeparator(value, last) && EndsBefore(value, last, r);
        forall n | 0 < n <= SUMMARY_MAX_LEN && WordEnd(value, n)
          ensures n > |r| <==> forall k :: n <= k < SUMMARY_MAX_LEN ==> !IsSeparator(value[k])
        {
          assert |r| < n <= last + 1 ==> IsSpace(value[n - 1]);
        }
      }
    }
  }

  /** In a text that starts with a word and has no whitespace but separators, a word is split exactly
      when the cap falls inside the first one, and one that fits is lost exactly when the cap falls on
      the end of a later one. */
  lemma SeparatorsOnlyCuts(value: string)
    requires |value| > SUMMARY_MAX_LEN && !IsSpace(value[0])
    requires forall i :: 0 <= i < |value| && IsSpace(value[i]) ==> IsSeparator(value[i])
    ensures var separated := exists k :: 0 <= k < SUMMARY_MAX_LEN && IsSeparator(value[k]);
            && (InsideWord(value, |Truncate(value)|) <==> InsideWord(value, SUMMARY_MAX_LEN) && !separated)
            && ((exists n :: |Truncate(value)| < n <= SUMMARY_MAX_LEN && WordEnd(value, n)) <==>
                WordEnd(value, SUMMARY_MAX_LEN) && separated)
  {
    WordSplitIff(value);
    WordLostIff(value);
    if k :| 0 <= k < SUMMARY_MAX_LEN && IsSeparator(value[k]) {
      assert 0 < k && !IsSpace(value[0]) && IsSeparator(value[k]);
    }
    forall n | 0 < n < SUMMARY_MAX_LEN && WordEnd(value, n) ensures IsSeparator(value[n]) {}
  }

  function Letters(n: nat): string { seq(n, _ => 'a') }

  /** Where the cap falls exactly between two words, the whole last word before it is lost. */
  lemma WordLostAtTheBoundary()
    ensures var value := "x " + Letters(998) + " z";
            WordEnd(value, SUMMARY_MAX_LEN) && Truncate(value) == "x"
  {
    var value := "x " + Letters(998) + " z";
    assert value[999] == Letters(998)[997] && value[SUMMARY_MAX_LEN] == ' ';
    assert forall k :: 2 <= k < SUMMARY_MAX_LEN ==> value[k] == Letters(998)[k - 2];
    assert !IsSpace(value[0]) && IsSeparator(value[1]);
    assert LastSeparator(value, 1) && EndsBefore(value, 1, "x");
    TruncateIsTheCut(value, "x");
  }

  /** A hard cut that splits no word. */
  lemma HardCutMaySplitNoWord()
    ensures var value := Letters(1000) + " b";
            |Truncate(value)| == SUMMARY_MAX_LEN && !InsideWord(value, |Truncate(value)|)
  {
    var value := Letters(1000) + " b";
    assert forall k :: 0 <= k < SUMMARY_MAX_LEN ==> value[k] == Letters(1000)[k];
    assert value[SUMMARY_MAX_LEN] == ' ';
    TruncateCuts(value);
  }

  /** An over-long text keeps as much as the cap allows exactly when, within it, no separator follows
      its first visible character. */
  lemma HardCutIff(value: string)
    requires |value| > SUMMARY_MAX_LEN
    ensures |Truncate(value)| == SUMMARY_MAX_LEN <==>
            forall i, k :: 0 <= i < k < SUMMARY_MAX_LEN && IsSeparator(value[k]) ==> IsSpace(value[i])
  {
    TruncateCuts(value);
  }
}
