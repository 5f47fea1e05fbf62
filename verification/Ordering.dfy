/** Python's `sorted` on sets and lists: ascending enumerations of a set and the stable sort. */
module Ordering {

  ghost predicate TotalOrder<T(!new)>(le: (T, T) -> bool) {
    && (forall x :: le(x, x))
    && (forall x, y :: le(x, y) && le(y, x) ==> x == y)
    && (forall x, y, z :: le(x, y) && le(y, z) ==> le(x, z))
    && (forall x, y :: le(x, y) || le(y, x))
  }

  /** Strictly increasing: sorted and free of repetitions. */
  ghost predicate Ascending<T(!new)>(xs: seq<T>, le: (T, T) -> bool) {
    forall i, j :: 0 <= i < j < |xs| ==> le(xs[i], xs[j]) && xs[i] != xs[j]
  }

  ghost predicate SortedBy<T(!new)>(xs: seq<T>, le: (T, T) -> bool) {
    forall i, j :: 0 <= i < j < |xs| ==> le(xs[i], xs[j])
  }

  function Elements<T>(xs: seq<T>): set<T> {
    set x | x in xs
  }

  lemma ElementsSnoc<T>(xs: seq<T>, x: T)
    ensures Elements(xs + [x]) == Elements(xs) + {x}
  {}

  lemma EmptyElements<T>(xs: seq<T>)
    ensures Elements(xs) == {} ==> xs == []
  {
    if xs != [] { assert xs[0] in Elements(xs); }
  }

  /** `xs` is `sorted(s)`. */
  ghost predicate IsSortedSet<T(!new)>(xs: seq<T>, s: set<T>, le: (T, T) -> bool) {
    Ascending(xs, le) && Elements(xs) == s
  }

  /** A set has one ascending enumeration. */
  lemma {:induction false} SortedSetUnique<T(!new)>(xs: seq<T>, ys: seq<T>, le: (T, T) -> bool)
    requires TotalOrder(le) && Ascending(xs, le) && Ascending(ys, le)
    requires Elements(xs) == Elements(ys)
    ensures xs == ys
    decreases |xs|
  {
    assert xs != [] ==> xs[0] in Elements(xs);
    assert ys != [] ==> ys[0] in Elements(ys);
    if xs != [] && ys != [] {
      HeadIsLeast(xs, le);
      HeadIsLeast(ys, le);
      assert xs[0] == ys[0];
      TailElements(xs, le);
      TailElements(ys, le);
      SortedSetUnique(xs[1..], ys[1..], le);
      assert xs == [xs[0]] + xs[1..] && ys == [ys[0]] + ys[1..];
    }
  }

  lemma {:induction false} SortedSetExists<T(!new)>(s: set<T>, le: (T, T) -> bool)
    requires TotalOrder(le)
    ensures exists xs: seq<T> :: IsSortedSet(xs, s, le)
  {
    if s == {} {
      assert IsSortedSet([], s, le);
    } else {
      var x :| x in s;
      SortedSetExists(s - {x}, le);
      var xs :| IsSortedSet(xs, s - {x}, le);
      InsertIntoAscending(x, xs, le);
      assert s - {x} + {x} == s;
    }
  }

  /** `sorted(s)`. */
  ghost function SortedSet<T(!new)>(s: set<T>, le: (T, T) -> bool): (xs: seq<T>)
    requires TotalOrder(le)
    ensures IsSortedSet(xs, s, le)
  {
    SortedSetExists(s, le);
    var xs :| IsSortedSet(xs, s, le);
    xs
  }

  lemma HeadIsLeast<T(!new)>(xs: seq<T>, le: (T, T) -> bool)
    requires TotalOrder(le) && Ascending(xs, le) && xs != []
    ensures forall x :: x in Elements(xs) ==> le(xs[0], x)
  {}

  lemma TailElements<T(!new)>(xs: seq<T>, le: (T, T) -> bool)
    requires Ascending(xs, le) && xs != []
    ensures Ascending(xs[1..], le) && Elements(xs[1..]) == Elements(xs) - {xs[0]}
  {
    forall x | x in Elements(xs) - {xs[0]} ensures x in xs[1..] {
      var i :| 0 <= i < |xs| && xs[i] == x;
      assert xs[1..][i - 1] == x;
    }
  }

  /** Insert into a sorted list, after everything not greater. */
  function Insert<T>(x: T, xs: seq<T>, le: (T, T) -> bool): seq<T> {
    if xs == [] then [x]
    else if le(xs[|xs| - 1], x) then xs + [x]
    else Insert(x, xs[..|xs| - 1], le) + [xs[|xs| - 1]]
  }

  /** The stable sort. */
  function Sort<T>(xs: seq<T>, le: (T, T) -> bool): seq<T> {
    if xs == [] then [] else Insert(xs[|xs| - 1], Sort(xs[..|xs| - 1], le), le)
  }

  /** `le` orders the keys that matter: any two elements compare, and comparisons chain. */
  ghost predicate Preorder<T(!new)>(le: (T, T) -> bool) {
    && (forall x, y, z :: le(x, y) && le(y, z) ==> le(x, z))
    && (forall x, y :: le(x, y) || le(y, x))
  }

  lemma {:induction false} InsertElements<T(!new)>(x: T, xs: seq<T>, le: (T, T) -> bool)
    ensures multiset(Insert(x, xs, le)) == multiset(xs) + multiset{x}
    decreases |xs|
  {
    if xs != [] {
      var n := |xs| - 1;
      assert xs == xs[..n] + [xs[n]];
      InsertElements(x, xs[..n], le);
    }
  }

  lemma {:induction false} InsertSorted<T(!new)>(x: T, xs: seq<T>, le: (T, T) -> bool)
    requires Preorder(le) && SortedBy(xs, le)
    ensures SortedBy(Insert(x, xs, le), le)
    decreases |xs|
  {
    if xs != [] {
      var n := |xs| - 1;
      if le(xs[n], x) {
        forall i | 0 <= i < |xs| ensures le(xs[i], x) {
          assert i == n || le(xs[i], xs[n]);
        }
      } else {
        var front := xs[..n];
        InsertSorted(x, front, le);
        InsertElements(x, front, le);
        var inner := Insert(x, front, le);
        forall i | 0 <= i < |inner| ensures le(inner[i], xs[n]) {
          assert inner[i] in multiset(inner);
          assert inner[i] == x || inner[i] in multiset(front);
        }
      }
    }
  }

  lemma InsertFacts<T(!new)>(x: T, xs: seq<T>, le: (T, T) -> bool)
    requires Preorder(le) && SortedBy(xs, le)
    ensures SortedBy(Insert(x, xs, le), le)
    ensures multiset(Insert(x, xs, le)) == multiset(xs) + multiset{x}
  {
    InsertSorted(x, xs, le);
    InsertElements(x, xs, le);
  }

  lemma {:induction false} SortFacts<T(!new)>(xs: seq<T>, le: (T, T) -> bool)
    requires Preorder(le)
    ensures SortedBy(Sort(xs, le), le)
    ensures multiset(Sort(xs, le)) == multiset(xs)
    decreases |xs|
  {
    if xs != [] {
      var n := |xs| - 1;
      assert xs == xs[..n] + [xs[n]];
      SortFacts(xs[..n], le);
      InsertFacts(xs[n], Sort(xs[..n], le), le);
    }
  }

  lemma SameMultisetSameElements<T>(xs: seq<T>, ys: seq<T>)
    requires multiset(xs) == multiset(ys)
    ensures Elements(xs) == Elements(ys)
  {
    forall x ensures x in xs <==> x in ys {
      assert x in xs <==> x in multiset(xs);
      assert x in ys <==> x in multiset(ys);
    }
  }

  /** Elements that compare both ways are equal. */
  ghost predicate NoTies<T(!new)>(xs: seq<T>, le: (T, T) -> bool) {
    forall x, y :: x in xs && y in xs && le(x, y) && le(y, x) ==> x == y
  }

  lemma SortedHeadsAgree<T(!new)>(xs: seq<T>, ys: seq<T>, le: (T, T) -> bool)
    requires SortedBy(xs, le) && SortedBy(ys, le) && multiset(xs) == multiset(ys) && xs != [] && ys != []
    requires NoTies(xs, le)
    ensures xs[0] == ys[0]
  {
    SameMultisetSameElements(xs, ys);
    assert xs[0] in Elements(ys) && ys[0] in Elements(xs);
  }

  lemma TailFacts<T(!new)>(xs: seq<T>, le: (T, T) -> bool)
    requires xs != [] && SortedBy(xs, le)
    ensures SortedBy(xs[1..], le) && (NoTies(xs, le) ==> NoTies(xs[1..], le))
    ensures multiset(xs[1..]) == multiset(xs) - multiset{xs[0]}
    ensures xs == [xs[0]] + xs[1..]
  {
    assert xs == [xs[0]] + xs[1..];
    assert forall x :: x in xs[1..] ==> x in xs;
  }

  /** Two sorted arrangements of the same elements agree when no two of them tie. */
  lemma {:induction false} SortedPermutationUnique<T(!new)>(xs: seq<T>, ys: seq<T>, le: (T, T) -> bool)
    requires SortedBy(xs, le) && SortedBy(ys, le) && multiset(xs) == multiset(ys)
    requires NoTies(xs, le)
    ensures xs == ys
    decreases |xs|
  {
    assert |xs| == |multiset(xs)| == |multiset(ys)| == |ys|;
    if xs != [] {
      SortedHeadsAgree(xs, ys, le);
      TailFacts(xs, le);
      TailFacts(ys, le);
      SortedPermutationUnique(xs[1..], ys[1..], le);
    }
  }

  ghost predicate Distinct<T(!new)>(xs: seq<T>) {
    forall i, j :: 0 <= i < j < |xs| ==> xs[i] != xs[j]
  }

  lemma {:induction false} DistinctByMultiset<T(!new)>(xs: seq<T>)
    ensures Distinct(xs) <==> forall x :: multiset(xs)[x] <= 1
  {
    if Distinct(xs) {
      forall x ensures multiset(xs)[x] <= 1 { DistinctCounts(xs, x); }
    } else {
      var i, j :| 0 <= i < j < |xs| && xs[i] == xs[j];
      RepeatedCounts(xs, i, j);
    }
  }

  lemma RepeatedCounts<T(!new)>(xs: seq<T>, i: nat, j: nat)
    requires i < j < |xs| && xs[i] == xs[j]
    ensures multiset(xs)[xs[i]] >= 2
  {
    var front := xs[..j];
    assert xs == front + [xs[j]] + xs[j + 1..];
    assert front[i] in multiset(front);
  }

  lemma {:induction false} DistinctCounts<T(!new)>(xs: seq<T>, x: T)
    requires Distinct(xs)
    ensures multiset(xs)[x] <= 1
    decreases |xs|
  {
    if xs != [] {
      var n := |xs| - 1;
      assert xs == xs[..n] + [xs[n]];
      DistinctCounts(xs[..n], x);
      if x == xs[n] {
        assert x !in xs[..n];
      }
    }
  }

  /** `sorted` on a set, as a loop that inserts its elements one by one. */
  method SortedList<T(==, !new)>(s: set<T>, le: (T, T) -> bool) returns (xs: seq<T>)
    requires TotalOrder(le)
    ensures xs == SortedSet(s, le)
  {
    xs := [];
    var rest := s;
    while rest != {}
      invariant rest <= s
      invariant IsSortedSet(xs, s - rest, le)
      decreases rest
    {
      var x :| x in rest;
      assert x !in Elements(xs);
      InsertIntoAscending(x, xs, le);
      xs := Insert(x, xs, le);
      rest := rest - {x};
      assert s - rest == s - (rest + {x}) + {x};
    }
    assert s - {} == s;
    SortedSetUnique(xs, SortedSet(s, le), le);
  }

  lemma InsertIntoAscending<T(!new)>(x: T, xs: seq<T>, le: (T, T) -> bool)
    requires TotalOrder(le) && Ascending(xs, le) && x !in Elements(xs)
    ensures IsSortedSet(Insert(x, xs, le), Elements(xs) + {x}, le)
  {
    var ys := Insert(x, xs, le);
    InsertFacts(x, xs, le);
    DistinctCountsAll(xs);
    forall y ensures multiset(ys)[y] <= 1 {
      if y == x { assert x !in multiset(xs); }
    }
    DistinctByMultiset(ys);
    forall y ensures y in Elements(ys) <==> y in Elements(xs) + {x} {
      assert y in ys <==> y in multiset(ys);
      assert y in xs <==> y in multiset(xs);
    }
  }

  lemma DistinctCountsAll<T(!new)>(xs: seq<T>)
    requires Distinct(xs)
    ensures forall x :: multiset(xs)[x] <= 1
  {
    DistinctByMultiset(xs);
  }

  // ---------------------------------------------------------------- the orders in use

  predicate IntLe(a: int, b: int) { a <= b }

  /** Strings compare by code point, a prefix first. */
  predicate StringLe(a: string, b: string) {
    a == "" || (b != "" && (a[0] < b[0] || (a[0] == b[0] && StringLe(a[1..], b[1..]))))
  }

  /** `a` comes first at position `k`: the two agree before it, and there `a` ends or has the smaller
      character. */
  ghost predicate DecidedAt(a: string, b: string, k: nat) {
    && k <= |a| && k <= |b| && a[..k] == b[..k]
    && (k == |a| || (k < |b| && a[k] < b[k]))
  }

  /** The order of strings is that of their first difference. */
  lemma {:induction false} StringLeIff(a: string, b: string)
    ensures StringLe(a, b) <==> exists k: nat :: DecidedAt(a, b, k)
  {
    if a == "" {
      assert DecidedAt(a, b, 0);
    } else if b != "" && a[0] == b[0] {
      StringLeIff(a[1..], b[1..]);
      if k: nat :| DecidedAt(a[1..], b[1..], k) {
        assert a[..k + 1] == [a[0]] + a[1..][..k] && b[..k + 1] == [b[0]] + b[1..][..k];
        assert DecidedAt(a, b, k + 1);
      }
      if k: nat :| DecidedAt(a, b, k) {
        assert k > 0;
        assert a[1..][..k - 1] == a[..k][1..] && b[1..][..k - 1] == b[..k][1..];
        assert DecidedAt(a[1..], b[1..], k - 1);
      }
    } else if b != "" && a[0] < b[0] {
      assert DecidedAt(a, b, 0);
    } else {
      forall k: nat ensures !DecidedAt(a, b, k) {
        if 0 < k <= |a| && k <= |b| { assert a[..k][0] == a[0] && b[..k][0] == b[0]; }
      }
    }
  }

  predicate PairLe(a: (int, int), b: (int, int)) {
    a.0 < b.0 || (a.0 == b.0 && a.1 <= b.1)
  }

  lemma IntLeTotal()
    ensures TotalOrder(IntLe)
  {}

  lemma PairLeTotal()
    ensures TotalOrder(PairLe)
  {}

  lemma {:induction false} StringLeReflexive(a: string)
    ensures StringLe(a, a)
  {
    if a != "" { StringLeReflexive(a[1..]); }
  }

  lemma {:induction false} StringLeAntisymmetric(a: string, b: string)
    requires StringLe(a, b) && StringLe(b, a)
    ensures a == b
  {
    if a != "" {
      StringLeAntisymmetric(a[1..], b[1..]);
      assert a == [a[0]] + a[1..] && b == [b[0]] + b[1..];
    }
  }

  lemma {:induction false} StringLeTransitive(a: string, b: string, c: string)
    requires StringLe(a, b) && StringLe(b, c)
    ensures StringLe(a, c)
  {
    if a != "" && a[0] == b[0] == c[0] {
      StringLeTransitive(a[1..], b[1..], c[1..]);
    }
  }

  lemma {:induction false} StringLeConnected(a: string, b: string)
    ensures StringLe(a, b) || StringLe(b, a)
  {
    if a != "" && b != "" && a[0] == b[0] {
      StringLeConnected(a[1..], b[1..]);
    }
  }

  lemma StringLeTotal()
    ensures TotalOrder(StringLe)
  {
    forall x ensures StringLe(x, x) { StringLeReflexive(x); }
    forall x, y | StringLe(x, y) && StringLe(y, x) ensures x == y { StringLeAntisymmetric(x, y); }
    forall x, y, z | StringLe(x, y) && StringLe(y, z) ensures StringLe(x, z) { StringLeTransitive(x, y, z); }
    forall x, y ensures StringLe(x, y) || StringLe(y, x) { StringLeConnected(x, y); }
  }
}
