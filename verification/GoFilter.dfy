/** Which paths are Go sources, and the view of a repository without vendored Go files. */
module GoFilter {
  import opened Ordering
  import opened FirstOccurrences
  import opened Text

  /** Text files by repository-relative path. */
  type Files = map<string, string>

  predicate IsGoSourceFile(path: string) {
    && EndsWith(path, ".go")
    && var parts := Split(Replace(path, "\\", "/"), '/');
       "vendor" !in parts[..|parts| - 1]
  }

  predicate HasGoArtefacts(files: Files) {
    "go.mod" in files || exists path :: path in files && IsGoSourceFile(path)
  }

  predicate IsVendoredGoPath(path: string) {
    EndsWith(path, ".go") && !IsGoSourceFile(path)
  }

  function WithoutVendoredGo(files: Files): Files {
    map path | path in files && !IsVendoredGoPath(path) :: files[path]
  }

  predicate IsRootPath(path: string) {
    '/' !in path && '\\' !in path
  }

  lemma {:induction false} SplitOfPlain(s: string, sep: char)
    requires sep !in s
    ensures Split(s, sep) == [s]
  {
    if s != "" {
      SplitOfPlain(s[1..], sep);
      assert s == [s[0]] + s[1..];
    }
  }

  /** The last part is what the text ends in. */
  lemma {:induction false} LastPart(s: string, sep: char)
    ensures var parts := Split(s, sep); EndsWith(s, parts[|parts| - 1])
  {
    if s != "" {
      LastPart(s[1..], sep);
      var parts, rest := Split(s, sep), Split(s[1..], sep);
      var last := rest[|rest| - 1];
      assert s[1..][|s[1..]| - |last|..] == s[|s| - |last|..];
      if |rest| == 1 && s[0] != sep {
        SplitSingle(s[1..], sep);
        assert parts[|parts| - 1] == s;
      } else {
        assert parts[|parts| - 1] == last;
      }
    }
  }

  lemma {:induction false} SplitSingle(s: string, sep: char)
    requires |Split(s, sep)| == 1
    ensures Split(s, sep) == [s]
  {
    if s != "" {
      SplitSingle(s[1..], sep);
      assert s == [s[0]] + s[1..];
    }
  }

  lemma {:induction false} ReplacedSlashes(path: string)
    requires IsRootPath(path)
    ensures Replace(path, "\\", "/") == path
  {
    Unreplaced(path, '\\', "/");
  }

  /** A vendored Go file lies in a directory, so it is never at the repository root. */
  lemma VendoredIsNotRoot(path: string)
    requires IsVendoredGoPath(path)
    ensures !IsRootPath(path)
  {
    if IsRootPath(path) {
      ReplacedSlashes(path);
      SplitOfPlain(path, '/');
    }
  }

  ghost function SortedPaths(files: Files): (paths: seq<string>)
    ensures IsSortedSet(paths, files.Keys, StringLe)
  {
    StringLeTotal();
    SortedSet(files.Keys, StringLe)
  }

  lemma {:induction false} FilterAscending<T(!new)>(keep: T -> bool, xs: seq<T>, le: (T, T) -> bool)
    requires Ascending(xs, le)
    ensures Ascending(Filter(keep, xs), le)
  {
    if xs != [] {
      var n := |xs| - 1;
      FilterAscending(keep, xs[..n], le);
      FilterElements(keep, xs[..n]);
      forall x | x in Filter(keep, xs[..n]) ensures le(x, xs[n]) && x != xs[n] {
        var i :| 0 <= i < n && xs[..n][i] == x;
        assert xs[i] == x;
      }
    }
  }

  function Kept(): string -> bool {
    path => !IsVendoredGoPath(path)
  }

  /** The view lists the paths that stay, in the same order. */
  lemma ViewKeepsOrder(files: Files)
    ensures SortedPaths(WithoutVendoredGo(files)) == Filter(Kept(), SortedPaths(files))
  {
    var all, kept := SortedPaths(files), Filter(Kept(), SortedPaths(files));
    StringLeTotal();
    FilterAscending(Kept(), all, StringLe);
    FilterElements(Kept(), all);
    assert Elements(kept) == WithoutVendoredGo(files).Keys by {
      forall p ensures p in Elements(kept) <==> p in WithoutVendoredGo(files) {
        assert p in all <==> p in Elements(all);
      }
    }
    SortedSetUnique(SortedPaths(WithoutVendoredGo(files)), kept, StringLe);
  }

  // ---------------------------------------------------------------- vendored, in plain terms

  predicate IsSlash(c: char) { c == '/' || c == '\\' }

  lemma {:induction false} NormalizedAt(path: string)
    ensures var s := Replace(path, "\\", "/");
            |s| == |path| && forall i :: 0 <= i < |s| ==> s[i] == if IsSlash(path[i]) then '/' else path[i]
  {
    if path != "" {
      NormalizedAt(path[1..]);
      ReplaceCharHead(path[0], path[1..], '\\', "/");
      assert path == [path[0]] + path[1..];
    }
  }

  /** `w` stands at `i` as a whole directory segment. */
  predicate SegmentAt(s: string, w: string, i: nat) {
    i + |w| < |s| && s[i..i + |w|] == w && (i == 0 || s[i - 1] == '/') && s[i + |w|] == '/'
  }

  lemma {:induction false} SplitAtFirst(s: string, k: nat)
    requires k < |s| && s[k] == '/' && '/' !in s[..k]
    ensures Split(s, '/') == [s[..k]] + Split(s[k + 1..], '/')
  {
    if k > 0 {
      assert s[1..][..k - 1] == s[..k][1..] && s[1..][k..] == s[k + 1..];
      SplitAtFirst(s[1..], k - 1);
      assert s[..k] == [s[0]] + s[1..][..k - 1];
      assert s[0] == s[..k][0];
    }
  }

  lemma {:induction false} FirstSlash(s: string) returns (k: nat)
    requires '/' in s
    ensures k < |s| && s[k] == '/' && '/' !in s[..k]
  {
    if s[0] == '/' {
      k := 0;
    } else {
      assert s == [s[0]] + s[1..];
      k := FirstSlash(s[1..]);
      assert s[..k + 1] == [s[0]] + s[1..][..k];
      k := k + 1;
    }
  }

  /** A directory part of the split is a whole segment, and the other way round. */
  lemma {:induction false} DirectoryPartIff(s: string, w: string)
    requires '/' !in w
    ensures var parts := Split(s, '/');
            w in parts[..|parts| - 1] <==> exists i: nat :: SegmentAt(s, w, i)
    decreases |s|
  {
    if '/' !in s {
      SplitOfPlain(s, '/');
      forall q | 0 <= q < |s| ensures s[q] != '/' {}
    } else {
      var k := FirstSlash(s);
      var t := s[k + 1..];
      SplitAtFirst(s, k);
      DirectoryPartIff(t, w);
      var parts, rest := Split(s, '/'), Split(t, '/');
      assert parts[..|parts| - 1] == [s[..k]] + rest[..|rest| - 1];
      FirstSegmentIff(s, k, w);
      LaterSegmentIff(s, t, k, w);
    }
  }

  lemma FirstSegmentIff(s: string, k: nat, w: string)
    requires k < |s| && s[k] == '/' && '/' !in s[..k] && '/' !in w
    ensures s[..k] == w <==> SegmentAt(s, w, 0)
  {
    if SegmentAt(s, w, 0) {
      assert s[0..|w|] == w;
      forall q | 0 <= q < |w| ensures s[q] != '/' { assert s[0..|w|][q] == s[q] && w[q] in w; }
      forall q | 0 <= q < k ensures s[q] != '/' { assert s[..k][q] == s[q]; }
      assert |w| == k;
    }
  }

  lemma LaterSegmentIff(s: string, t: string, k: nat, w: string)
    requires k < |s| && s[k] == '/' && '/' !in s[..k] && t == s[k + 1..]
    ensures (exists i: nat :: SegmentAt(t, w, i)) <==> (exists i: nat :: i > 0 && SegmentAt(s, w, i))
  {
    if i: nat :| SegmentAt(t, w, i) {
      assert t[i..i + |w|] == s[k + 1 + i..k + 1 + i + |w|];
      assert SegmentAt(s, w, k + 1 + i);
    }
    if i: nat :| i > 0 && SegmentAt(s, w, i) {
      forall q | 0 <= q < k ensures s[q] != '/' { assert s[..k][q] == s[q]; }
      assert i - 1 >= k;
      var j := i - (k + 1);
      assert t[j..j + |w|] == s[i..i + |w|];
      assert SegmentAt(t, w, j);
    }
  }

  /** `w` stands at `i` in a path as a whole directory segment, under either slash. */
  predicate DirectoryAt(path: string, w: string, i: nat) {
    && i + |w| < |path| && path[i..i + |w|] == w
    && (i == 0 || IsSlash(path[i - 1])) && IsSlash(path[i + |w|])
  }

  lemma NormalizedSegment(path: string, w: string, i: nat)
    requires '/' !in w && '\\' !in w
    ensures SegmentAt(Replace(path, "\\", "/"), w, i) <==> DirectoryAt(path, w, i)
  {
    var s := Replace(path, "\\", "/");
    NormalizedAt(path);
    if i + |w| < |s| {
      if s[i..i + |w|] == w {
        forall q | 0 <= q < |w| ensures path[i..i + |w|][q] == w[q] {
          assert s[i..i + |w|][q] == s[i + q] && w[q] in w;
        }
      }
      if path[i..i + |w|] == w {
        forall q | 0 <= q < |w| ensures s[i..i + |w|][q] == w[q] {
          assert path[i..i + |w|][q] == path[i + q] && w[q] in w;
        }
      }
    }
  }

  lemma DirectoryIff(path: string, w: string)
    requires '/' !in w && '\\' !in w
    ensures var parts := Split(Replace(path, "\\", "/"), '/');
            w in parts[..|parts| - 1] <==> exists i: nat :: DirectoryAt(path, w, i)
  {
    var s := Replace(path, "\\", "/");
    DirectoryPartIff(s, w);
    forall i: nat ensures SegmentAt(s, w, i) <==> DirectoryAt(path, w, i) { NormalizedSegment(path, w, i); }
  }

  /** A Go file is a source exactly when no directory on its path, at any depth and under either slash, is
      called `vendor`; a file or a longer name is no such directory. */
  lemma SourceIffNoVendorDirectory(path: string)
    ensures IsGoSourceFile(path) <==> EndsWith(path, ".go") && forall i: nat :: !DirectoryAt(path, "vendor", i)
    ensures IsVendoredGoPath(path) <==> EndsWith(path, ".go") && exists i: nat :: DirectoryAt(path, "vendor", i)
  {
    DirectoryIff(path, "vendor");
  }

  /** A repository counts as Go exactly when it has a module manifest at its root or any Go file outside
      directories called `vendor`. */
  lemma GoRepositoryIff(files: Files)
    ensures HasGoArtefacts(files) <==>
            || "go.mod" in files
            || exists path :: path in files && EndsWith(path, ".go") && forall i: nat :: !DirectoryAt(path, "vendor", i)
  {
    forall path
      ensures IsGoSourceFile(path) <==> EndsWith(path, ".go") && forall i: nat :: !DirectoryAt(path, "vendor", i)
    {
      SourceIffNoVendorDirectory(path);
    }
  }
}
