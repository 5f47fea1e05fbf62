/** First-occurrence deduplication. */
module FirstOccurrences {
  import opened Ordering

  /** Keep each element where it first occurs. */
  function Dedup<T(==)>(xs: seq<T>): seq<T> {
    if xs == [] then []
    else
      var before, x := Dedup(xs[..|xs| - 1]), xs[|xs| - 1];
      if x in before then before else before + [x]
  }

  function Filter<T>(keep: T -> bool, xs: seq<T>): seq<T> {
    if xs == [] then []
    else
      var before, x := Filter(keep, xs[..|xs| - 1]), xs[|xs| - 1];
      if keep(x) then before + [x] else before
  }

  function Flatten<T>(xss: seq<seq<T>>): seq<T> {
    if xss == [] then [] else Flatten(xss[..|xss| - 1]) + xss[|xss| - 1]
  }

  /** `x` occurs in `xs` for the first time at `i`. */
  predicate FirstAt<T(==)>(xs: seq<T>, x: T, i: nat) {
    i < |xs| && xs[i] == x && x !in xs[..i]
  }

  lemma DedupSnoc<T>(xs: seq<T>, x: T)
    ensures Dedup(xs + [x]) == if x in Dedup(xs) then Dedup(xs) else Dedup(xs) + [x]
  {
    assert (xs + [x])[..|xs|] == xs;
  }

  lemma FilterSnoc<T>(keep: T -> bool, xs: seq<T>, x: T)
    ensures Filter(keep, xs + [x]) == if keep(x) then Filter(keep, xs) + [x] else Filter(keep, xs)
  {
    assert (xs + [x])[..|xs|] == xs;
  }

  lemma {:induction false} DedupElements<T>(xs: seq<T>)
    ensures forall x :: x in Dedup(xs) <==> x in xs
  {
    if xs != [] {
      var n := |xs| - 1;
      DedupElements(xs[..n]);
      assert xs == xs[..n] + [xs[n]];
    }
  }

  lemma {:induction false} DedupDistinct<T(!new)>(xs: seq<T>)
    ensures Distinct(Dedup(xs))
  {
    if xs != [] { DedupDistinct(xs[..|xs| - 1]); }
  }

  /** The result lists every element of `xs` once, in the order of their first occurrences. */
  lemma {:induction false} DedupKeepsFirstOccurrences<T(!new)>(xs: seq<T>)
    ensures Distinct(Dedup(xs))
    ensures Elements(Dedup(xs)) == Elements(xs)
    ensures forall i, j, a, b ::
            0 <= i < j < |Dedup(xs)| && FirstAt(xs, Dedup(xs)[i], a) && FirstAt(xs, Dedup(xs)[j], b) ==> a < b
  {
    DedupDistinct(xs);
    DedupElements(xs);
    if xs != [] {
      var n := |xs| - 1;
      var front, x := xs[..n], xs[n];
      var d := Dedup(front);
      DedupKeepsFirstOccurrences(front);
      DedupElements(front);
      forall i, j, a, b | 0 <= i < j < |Dedup(xs)| && FirstAt(xs, Dedup(xs)[i], a) && FirstAt(xs, Dedup(xs)[j], b)
        ensures a < b
      {
        assert Dedup(xs)[i] == d[i] && d[i] in front;
        FirstInFront(xs, d[i], a);
        if j < |d| {
          assert d[j] in front;
          FirstInFront(xs, d[j], b);
        } else {
          assert x !in front;
        }
      }
    }
  }

  lemma FirstInFront<T(!new)>(xs: seq<T>, x: T, i: nat)
    requires xs != [] && x in xs[..|xs| - 1] && FirstAt(xs, x, i)
    ensures FirstAt(xs[..|xs| - 1], x, i)
  {
    var front := xs[..|xs| - 1];
    var k :| 0 <= k < |front| && front[k] == x;
    assert forall q :: 0 <= q < i ==> xs[..i][q] == xs[q];
    assert front[..i] == xs[..i];
  }

  /** Deduplicating a prefix first changes nothing. */
  lemma {:induction false} DedupPrefix<T>(xs: seq<T>, ys: seq<T>)
    ensures Dedup(xs + ys) == Dedup(Dedup(xs) + ys)
    decreases |ys|
  {
    if ys == [] {
      assert xs + ys == xs && Dedup(xs) + ys == Dedup(xs);
      DedupIdempotent(xs);
    } else {
      var n := |ys| - 1;
      DedupPrefix(xs, ys[..n]);
      assert ys == ys[..n] + [ys[n]];
      assert xs + ys == (xs + ys[..n]) + [ys[n]];
      assert Dedup(xs) + ys == (Dedup(xs) + ys[..n]) + [ys[n]];
      DedupSnoc(xs + ys[..n], ys[n]);
      DedupSnoc(Dedup(xs) + ys[..n], ys[n]);
    }
  }

  lemma {:induction false} DedupIdempotent<T>(xs: seq<T>)
    ensures Dedup(Dedup(xs)) == Dedup(xs)
  {
    if xs != [] {
      var n := |xs| - 1;
      DedupIdempotent(xs[..n]);
      DedupSnoc(Dedup(xs[..n]), xs[n]);
    }
  }

  /** Repeating elements already listed changes nothing. */
  lemma {:induction false} DedupAbsorbs<T>(xs: seq<T>, ys: seq<T>)
    requires forall y :: y in ys ==> y in xs
    ensures Dedup(xs + ys) == Dedup(xs)
    decreases |ys|
  {
    if ys == [] {
      assert xs + ys == xs;
    } else {
      var n := |ys| - 1;
      assert ys == ys[..n] + [ys[n]];
      DedupAbsorbs(xs, ys[..n]);
      assert xs + ys == (xs + ys[..n]) + [ys[n]];
      DedupSnoc(xs + ys[..n], ys[n]);
      DedupElements(xs);
    }
  }

  lemma AppendNew<T>(a: seq<T>, b: seq<T>, y: T)
    ensures Dedup(a + if y in b then b else b + [y]) == if y in Dedup(a + b) then Dedup(a + b) else Dedup(a + b) + [y]
  {
    DedupElements(a + b);
    if y in b {
      assert y in a + b;
    } else {
      assert a + (b + [y]) == (a + b) + [y];
      DedupSnoc(a + b, y);
    }
  }

  lemma DedupPartsStep<T>(xs: seq<T>, ys: seq<T>, y: T)
    requires Dedup(xs + ys) == Dedup(Dedup(xs) + Dedup(ys))
    ensures Dedup(xs + (ys + [y])) == Dedup(Dedup(xs) + Dedup(ys + [y]))
  {
    assert xs + (ys + [y]) == (xs + ys) + [y];
    DedupSnoc(xs + ys, y);
    var a, b := Dedup(xs), Dedup(ys);
    assert Dedup(ys + [y]) == (if y in b then b else b + [y]) by { DedupSnoc(ys, y); }
    AppendNew(a, b, y);
  }

  /** Deduplicating the parts first changes nothing. */
  lemma {:induction false} DedupParts<T>(xs: seq<T>, ys: seq<T>)
    ensures Dedup(xs + ys) == Dedup(Dedup(xs) + Dedup(ys))
    decreases |ys|
  {
    if ys == [] {
      assert xs + ys == xs && Dedup(xs) + Dedup(ys) == Dedup(xs);
      DedupIdempotent(xs);
    } else {
      var n := |ys| - 1;
      DedupParts(xs, ys[..n]);
      DedupPartsStep(xs, ys[..n], ys[n]);
      assert ys == ys[..n] + [ys[n]];
    }
  }

  lemma {:induction false} FilterElements<T>(keep: T -> bool, xs: seq<T>)
    ensures forall x :: x in Filter(keep, xs) <==> x in xs && keep(x)
  {
    if xs != [] {
      var n := |xs| - 1;
      FilterElements(keep, xs[..n]);
      assert xs == xs[..n] + [xs[n]];
    }
  }

  /** Pruning and deduplicating commute. */
  lemma {:induction false} DedupFilter<T>(keep: T -> bool, xs: seq<T>)
    ensures Dedup(Filter(keep, xs)) == Filter(keep, Dedup(xs))
  {
    if xs != [] {
      var n := |xs| - 1;
      var front, x := xs[..n], xs[n];
      DedupFilter(keep, front);
      assert xs == front + [x];
      FilterElements(keep, Dedup(front));
      if keep(x) { DedupSnoc(Filter(keep, front), x); }
      if x !in Dedup(front) { FilterSnoc(keep, Dedup(front), x); }
    }
  }

  /** Appends the elements of `source` not seen in `before`. */
  method DedupSource<T(==)>(source: seq<T>, sofar: seq<T>, known: set<T>, ghost before: seq<T>)
    returns (merged: seq<T>, seen: set<T>)
    requires sofar == Dedup(before) && known == Elements(sofar)
    ensures merged == Dedup(before + source) && seen == Elements(merged)
  {
    merged, seen := sofar, known;
    assert before + [] == before;
    for j := 0 to |source|
      invariant merged == Dedup(before + source[..j]) && seen == Elements(merged)
    {
      assert before + source[..j + 1] == before + source[..j] + [source[j]];
      DedupSnoc(before + source[..j], source[j]);
      ElementsSnoc(merged, source[j]);
      if source[j] !in seen {
        seen := seen + {source[j]};
        merged := merged + [source[j]];
      }
    }
    assert source[..|source|] == source;
  }

  // ---------------------------------------------------------------- merging several pruned sources

  lemma {:induction false} FlattenElements<T>(xss: seq<seq<T>>, x: T)
    ensures x in Flatten(xss) <==> exists s :: 0 <= s < |xss| && x in xss[s]
  {
    if xss != [] {
      var n := |xss| - 1;
      FlattenElements(xss[..n], x);
      if s :| 0 <= s < |xss| && x in xss[s] {
        assert s < n ==> x in xss[..n][s];
      }
    }
  }

  /** `s` is the first source that holds `x`. */
  ghost predicate FirstSource<T>(xss: seq<seq<T>>, s: nat, x: T) {
    s < |xss| && x in xss[s] && forall t :: 0 <= t < s ==> x !in xss[t]
  }

  /** The first occurrence in the concatenation is the first in the first source that has one. */
  lemma {:induction false} FirstInFlatten<T(!new)>(xss: seq<seq<T>>, x: T, s: nat, k: nat, a: nat)
    requires FirstSource(xss, s, x) && FirstAt(xss[s], x, k) && FirstAt(Flatten(xss), x, a)
    ensures a == |Flatten(xss[..s])| + k
  {
    var n := |xss| - 1;
    var front := Flatten(xss[..n]);
    FlattenElements(xss[..n], x);
    if s < n {
      assert x in xss[..n][s];
      FirstInPrefix(front, xss[n], x, a);
      assert xss[..n][..s] == xss[..s];
      FirstInFlatten(xss[..n], x, s, k, a);
    } else {
      assert forall t :: 0 <= t < n ==> xss[..n][t] == xss[t];
      FirstInSuffix(front, xss[n], x, k, a);
    }
  }

  lemma FirstInPrefix<T(!new)>(a: seq<T>, b: seq<T>, x: T, i: nat)
    requires x in a && FirstAt(a + b, x, i)
    ensures FirstAt(a, x, i)
  {
    var k :| 0 <= k < |a| && a[k] == x;
    forall q | 0 <= q < i ensures (a + b)[q] != x {
      assert (a + b)[..i][q] == (a + b)[q];
    }
    assert (a + b)[k] == x;
    assert a[..i] == (a + b)[..i];
  }

  lemma FirstInSuffix<T(!new)>(a: seq<T>, b: seq<T>, x: T, k: nat, i: nat)
    requires x !in a && FirstAt(b, x, k) && FirstAt(a + b, x, i)
    ensures i == |a| + k
  {
    assert (a + b)[|a| + k] == x;
    assert forall q :: 0 <= q < i ==> (a + b)[..i][q] == (a + b)[q];
    assert forall q :: 0 <= q < k ==> b[..k][q] == b[q];
  }

  lemma {:induction false} HasFirst<T(!new)>(xs: seq<T>, x: T) returns (i: nat)
    requires x in xs
    ensures FirstAt(xs, x, i)
  {
    var n := |xs| - 1;
    assert xs == xs[..n] + [xs[n]];
    if x in xs[..n] {
      i := HasFirst(xs[..n], x);
      assert xs[..n][..i] == xs[..i];
    } else {
      i := n;
    }
  }

  lemma {:induction false} FlattenGrows<T>(xss: seq<seq<T>>, s: nat, t: nat)
    requires s < t <= |xss|
    ensures |Flatten(xss[..s])| + |xss[s]| <= |Flatten(xss[..t])|
    decreases t
  {
    assert xss[..t][..t - 1] == xss[..t - 1];
    if s < t - 1 { FlattenGrows(xss, s, t - 1); }
  }

  /** Merging lists by source first, then by first position in the source. */
  lemma MergeOrder<T(!new)>(xss: seq<seq<T>>, i: nat, j: nat, s: nat, t: nat, k: nat, l: nat)
    requires i < j < |Dedup(Flatten(xss))|
    requires FirstSource(xss, s, Dedup(Flatten(xss))[i]) && FirstSource(xss, t, Dedup(Flatten(xss))[j])
    requires FirstAt(xss[s], Dedup(Flatten(xss))[i], k) && FirstAt(xss[t], Dedup(Flatten(xss))[j], l)
    ensures s < t || (s == t && k < l)
  {
    var all := Flatten(xss);
    var x, y := Dedup(all)[i], Dedup(all)[j];
    DedupElements(all);
    assert x in Dedup(all) && y in Dedup(all);
    var a := HasFirst(all, x);
    var b := HasFirst(all, y);
    DedupKeepsFirstOccurrences(all);
    FirstInFlatten(xss, x, s, k, a);
    FirstInFlatten(xss, y, t, l, b);
    if t < s { FlattenGrows(xss, t, s); }
  }

  /** Pruning keeps the order of first occurrences. */
  lemma {:induction false} FilterOrder<T(!new)>(keep: T -> bool, xs: seq<T>, x: T, y: T, a: nat, b: nat, k: nat, l: nat)
    requires FirstAt(xs, x, a) && FirstAt(xs, y, b)
    requires FirstAt(Filter(keep, xs), x, k) && FirstAt(Filter(keep, xs), y, l)
    ensures k < l <==> a < b
  {
    var n := |xs| - 1;
    var front, z := xs[..n], xs[n];
    assert xs == front + [z];
    FilterElements(keep, front);
    var kept := Filter(keep, front);
    assert Filter(keep, xs) == if keep(z) then kept + [z] else kept;
    FilterElements(keep, xs);
    assert x in Filter(keep, xs) && y in Filter(keep, xs);
    if x in front { FirstInPrefix(front, [z], x, a); } else { assert a == n; }
    if y in front { FirstInPrefix(front, [z], y, b); } else { assert b == n; }
    if x in front && keep(z) { FirstInPrefix(kept, [z], x, k); }
    if y in front && keep(z) { FirstInPrefix(kept, [z], y, l); }
    if x in front && y in front { FilterOrder(keep, front, x, y, a, b, k, l); }
  }

  /** Source `s` lists `x`, and pruning keeps it there. */
  ghost predicate KeptIn<T>(raws: seq<seq<T>>, keeps: seq<T -> bool>, s: nat, x: T)
    requires |keeps| == |raws|
  {
    s < |raws| && x in raws[s] && keeps[s](x)
  }

  ghost predicate FirstKeptIn<T>(raws: seq<seq<T>>, keeps: seq<T -> bool>, s: nat, x: T)
    requires |keeps| == |raws|
  {
    KeptIn(raws, keeps, s, x) && forall t: nat :: t < s ==> !KeptIn(raws, keeps, t, x)
  }

  /** `r` lists what some source keeps, once, by first source that keeps it and first position there. */
  ghost predicate Merges<T(!new)>(r: seq<T>, raws: seq<seq<T>>, keeps: seq<T -> bool>)
    requires |keeps| == |raws|
  {
    && Distinct(r)
    && (forall x :: x in r <==> exists s: nat :: KeptIn(raws, keeps, s, x))
    && (forall i, j, s: nat, t: nat, a: nat, b: nat ::
          0 <= i < j < |r| && FirstKeptIn(raws, keeps, s, r[i]) && FirstKeptIn(raws, keeps, t, r[j])
          && FirstAt(raws[s], r[i], a) && FirstAt(raws[t], r[j], b)
          ==> s < t || (s == t && a < b))
  }

  lemma FirstKeptIsFirstSource<T(!new)>(raws: seq<seq<T>>, keeps: seq<T -> bool>, xss: seq<seq<T>>, s: nat, x: T)
    requires |keeps| == |raws| == |xss| && forall u :: 0 <= u < |xss| ==> xss[u] == Filter(keeps[u], raws[u])
    requires FirstKeptIn(raws, keeps, s, x)
    ensures FirstSource(xss, s, x)
  {
    FilterElements(keeps[s], raws[s]);
    forall t | 0 <= t < s ensures x !in xss[t] {
      FilterElements(keeps[t], raws[t]);
      assert !KeptIn(raws, keeps, t, x);
    }
  }

  /** Pruning each source, concatenating and deduplicating merges them so. */
  lemma PrunedMerge<T(!new)>(raws: seq<seq<T>>, keeps: seq<T -> bool>, xss: seq<seq<T>>)
    requires |keeps| == |raws| == |xss| && forall u :: 0 <= u < |xss| ==> xss[u] == Filter(keeps[u], raws[u])
    ensures Merges(Dedup(Flatten(xss)), raws, keeps)
  {
    var r := Dedup(Flatten(xss));
    DedupDistinct(Flatten(xss));
    forall x ensures x in r <==> exists s: nat :: KeptIn(raws, keeps, s, x) {
      DedupElements(Flatten(xss));
      FlattenElements(xss, x);
      if s: nat :| KeptIn(raws, keeps, s, x) { FilterElements(keeps[s], raws[s]); }
      if s :| 0 <= s < |xss| && x in xss[s] {
        FilterElements(keeps[s], raws[s]);
        assert KeptIn(raws, keeps, s, x);
      }
    }
    forall i, j, s: nat, t: nat, a: nat, b: nat
      | 0 <= i < j < |r| && FirstKeptIn(raws, keeps, s, r[i]) && FirstKeptIn(raws, keeps, t, r[j])
        && FirstAt(raws[s], r[i], a) && FirstAt(raws[t], r[j], b)
      ensures s < t || (s == t && a < b)
    {
      FirstKeptIsFirstSource(raws, keeps, xss, s, r[i]);
      FirstKeptIsFirstSource(raws, keeps, xss, t, r[j]);
      var k := HasFirst(xss[s], r[i]);
      var l := HasFirst(xss[t], r[j]);
      MergeOrder(xss, i, j, s, t, k, l);
      if s == t { FilterOrder(keeps[s], raws[s], r[i], r[j], a, b, k, l); }
    }
  }

  lemma {:induction false} FilterSame<T>(keep: T -> bool, keep': T -> bool, xs: seq<T>)
    requires forall x :: x in xs ==> keep(x) == keep'(x)
    ensures Filter(keep, xs) == Filter(keep', xs)
  {
    if xs != [] {
      var n := |xs| - 1;
      assert xs == xs[..n] + [xs[n]];
      FilterSame(keep, keep', xs[..n]);
    }
  }

  lemma {:induction false} KeepAll<T>(keep: T -> bool, xs: seq<T>)
    requires forall x :: x in xs ==> keep(x)
    ensures Filter(keep, xs) == xs
  {
    if xs != [] {
      var n := |xs| - 1;
      assert xs == xs[..n] + [xs[n]];
      KeepAll(keep, xs[..n]);
    }
  }
}
