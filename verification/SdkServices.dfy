/** Aggregation of URL and SDK detections: grouped by name, most specific kind, sorted locations. */
module SdkServices {
  import opened Models
  import opened Ordering
  import opened FirstOccurrences

  datatype Detection = Detection(name: string, kind: ServiceKind, source: SourceLocation)

  /** Lower wins. */
  function KindRank(kind: ServiceKind): nat {
    match kind
    case MessageBroker | ObjectStore | Cache | AuthProvider => 0
    case HttpApi => 1
    case OtherKind => 2
  }

  function LineKey(l: SourceLocation): int {
    if l.line.Some? then l.line.value else 0
  }

  /** The sort key `(path, line or 0)`. */
  predicate LocationLe(a: SourceLocation, b: SourceLocation) {
    if a.path == b.path then LineKey(a) <= LineKey(b) else StringLe(a.path, b.path)
  }

  lemma LocationLePreorder()
    ensures Preorder(LocationLe)
  {
    StringLeTotal();
  }

  // ---------------------------------------------------------------- specification

  function GroupOf(ds: seq<Detection>, n: string): seq<Detection> {
    if ds == [] then []
    else
      var before, d := GroupOf(ds[..|ds| - 1], n), ds[|ds| - 1];
      if d.name == n then before + [d] else before
  }

  /** `min(kinds, key=rank)`: the first kind of least rank. */
  function BestKind(group: seq<Detection>): ServiceKind
    requires group != []
  {
    var last := group[|group| - 1].kind;
    if |group| == 1 then last
    else
      var best := BestKind(group[..|group| - 1]);
      if KindRank(last) < KindRank(best) then last else best
  }

  function SourcesOf(group: seq<Detection>): (sources: seq<SourceLocation>)
    ensures |sources| == |group|
    ensures forall i :: 0 <= i < |group| ==> sources[i] == group[i].source
  {
    seq(|group|, i requires 0 <= i < |group| => group[i].source)
  }

  function LocationsOf(group: seq<Detection>): seq<SourceLocation> {
    Sort(Dedup(SourcesOf(group)), LocationLe)
  }

  function NamesOf(ds: seq<Detection>): set<string> {
    set d | d in ds :: d.name
  }

  lemma {:induction false} GroupMeaning(ds: seq<Detection>, n: string)
    ensures forall d :: d in GroupOf(ds, n) <==> d in ds && d.name == n
    ensures GroupOf(ds, n) != [] <==> n in NamesOf(ds)
  {
    if ds != [] {
      var k := |ds| - 1;
      GroupMeaning(ds[..k], n);
      assert ds == ds[..k] + [ds[k]];
    }
    if d :| d in ds && d.name == n { assert d in GroupOf(ds, n); }
    if GroupOf(ds, n) != [] { assert GroupOf(ds, n)[0] in ds; }
  }

  function EntryFor(ds: seq<Detection>, n: string): ServiceDependency
    requires GroupOf(ds, n) != []
  {
    ServiceDependency(n, BestKind(GroupOf(ds, n)), LocationsOf(GroupOf(ds, n)))
  }

  function EntriesFor(ds: seq<Detection>, names: seq<string>): (r: seq<ServiceDependency>)
    requires forall n :: n in names ==> GroupOf(ds, n) != []
    ensures |r| == |names|
    ensures forall i :: 0 <= i < |r| ==> r[i] == EntryFor(ds, names[i])
  {
    if names == [] then [] else EntriesFor(ds, names[..|names| - 1]) + [EntryFor(ds, names[|names| - 1])]
  }

  ghost function SortedNames(ds: seq<Detection>): (names: seq<string>)
    ensures IsSortedSet(names, NamesOf(ds), StringLe)
    ensures forall n :: n in names ==> GroupOf(ds, n) != []
  {
    StringLeTotal();
    var names := SortedSet(NamesOf(ds), StringLe);
    assert forall n :: n in names ==> GroupOf(ds, n) != [] by {
      forall n | n in names ensures GroupOf(ds, n) != [] {
        assert n in Elements(names);
        GroupMeaning(ds, n);
      }
    }
    names
  }

  ghost function Aggregated(ds: seq<Detection>): seq<ServiceDependency> {
    EntriesFor(ds, SortedNames(ds))
  }

  // ---------------------------------------------------------------- the loops

  /** The groups dictionary after the detections `ds`. */
  ghost predicate Grouped(ds: seq<Detection>, groups: map<string, seq<Detection>>) {
    groups.Keys == NamesOf(ds) && forall n :: n in groups ==> groups[n] == GroupOf(ds, n)
  }

  lemma GroupSnoc(ds: seq<Detection>, d: Detection, n: string)
    ensures GroupOf(ds + [d], n) == if d.name == n then GroupOf(ds, n) + [d] else GroupOf(ds, n)
  {
    assert (ds + [d])[..|ds|] == ds;
  }

  lemma GroupedStep(ds: seq<Detection>, d: Detection, groups: map<string, seq<Detection>>)
    requires Grouped(ds, groups)
    ensures Grouped(ds + [d], groups[d.name := (if d.name in groups then groups[d.name] else []) + [d]])
  {
    assert forall e :: e in ds + [d] <==> e in ds || e == d;
    assert NamesOf(ds + [d]) == NamesOf(ds) + {d.name};
    if d.name !in groups { GroupMeaning(ds, d.name); }
    forall n ensures GroupOf(ds + [d], n) == if d.name == n then GroupOf(ds, n) + [d] else GroupOf(ds, n) {
      GroupSnoc(ds, d, n);
    }
  }

  method GroupByName(ds: seq<Detection>) returns (groups: map<string, seq<Detection>>)
    ensures Grouped(ds, groups)
  {
    groups := map[];
    for i := 0 to |ds|
      invariant Grouped(ds[..i], groups)
    {
      assert ds[..i + 1] == ds[..i] + [ds[i]];
      GroupedStep(ds[..i], ds[i], groups);
      groups := groups[ds[i].name := (if ds[i].name in groups then groups[ds[i].name] else []) + [ds[i]]];
    }
    assert ds[..|ds|] == ds;
  }

  method MinKind(group: seq<Detection>) returns (best: ServiceKind)
    requires group != []
    ensures best == BestKind(group)
  {
    best := group[0].kind;
    for i := 1 to |group|
      invariant best == BestKind(group[..i])
    {
      assert group[..i + 1][..i] == group[..i];
      if KindRank(group[i].kind) < KindRank(best) { best := group[i].kind; }
    }
    assert group[..|group|] == group;
  }

  lemma SourcesSnoc(group: seq<Detection>, i: nat)
    requires i < |group|
    ensures Dedup(SourcesOf(group[..i + 1])) ==
            var before := Dedup(SourcesOf(group[..i]));
            if group[i].source in before then before else before + [group[i].source]
  {
    assert SourcesOf(group[..i + 1]) == SourcesOf(group[..i]) + [group[i].source];
    DedupSnoc(SourcesOf(group[..i]), group[i].source);
  }

  method DistinctSources(group: seq<Detection>) returns (sources: seq<SourceLocation>)
    ensures sources == Dedup(SourcesOf(group))
  {
    var seen: set<SourceLocation> := {};
    sources := [];
    for i := 0 to |group|
      invariant sources == Dedup(SourcesOf(group[..i])) && seen == Elements(sources)
    {
      SourcesSnoc(group, i);
      if group[i].source !in seen {
        seen := seen + {group[i].source};
        sources := sources + [group[i].source];
      }
    }
    assert group[..|group|] == group;
  }

  method SortedLocations(group: seq<Detection>) returns (sources: seq<SourceLocation>)
    ensures sources == LocationsOf(group)
  {
    sources := DistinctSources(group);
    sources := Sort(sources, LocationLe);
  }

  method Aggregate(ds: seq<Detection>) returns (r: seq<ServiceDependency>)
    ensures r == Aggregated(ds)
  {
    StringLeTotal();
    var groups := GroupByName(ds);
    var names := SortedList(groups.Keys, StringLe);
    SortedSetUnique(names, SortedNames(ds), StringLe);
    r := [];
    for i := 0 to |names|
      invariant r == EntriesFor(ds, names[..i])
    {
      assert names[i] in SortedNames(ds) && names[i] in Elements(names);
      assert names[..i + 1][..i] == names[..i];
      var kind := MinKind(groups[names[i]]);
      var sources := SortedLocations(groups[names[i]]);
      r := r + [ServiceDependency(names[i], kind, sources)];
    }
    assert names[..|names|] == names;
  }

  // ---------------------------------------------------------------- what aggregation means

  lemma SortedDedupFacts(xs: seq<SourceLocation>)
    ensures var r := Sort(Dedup(xs), LocationLe);
            && SortedBy(r, LocationLe) && Distinct(r) && Elements(r) == Elements(xs)
  {
    var d := Dedup(xs);
    LocationLePreorder();
    SortFacts(d, LocationLe);
    DedupDistinct(xs);
    DedupElements(xs);
    DistinctByMultiset(d);
    DistinctByMultiset(Sort(d, LocationLe));
    SameMultisetSameElements(Sort(d, LocationLe), d);
  }

  /** One entry per detected name, names strictly sorted, locations non-empty, duplicate-free and
      sorted. */
  lemma AggregatedIsValid(ds: seq<Detection>)
    ensures var r := Aggregated(ds);
            && (forall i, j :: 0 <= i < j < |r| ==> StringLe(r[i].name, r[j].name) && r[i].name != r[j].name)
            && (forall n :: n in NamesOf(ds) <==> exists e :: e in r && e.name == n)
            && (forall e :: e in r ==> e.locations != [] && Distinct(e.locations) && SortedBy(e.locations, LocationLe))
            && ("" !in NamesOf(ds) ==> ValidServices(r))
  {
    var names, r := SortedNames(ds), Aggregated(ds);
    forall e | e in r
      ensures e.name in NamesOf(ds) && e.locations != [] && Distinct(e.locations) && SortedBy(e.locations, LocationLe)
    {
      var i :| 0 <= i < |r| && r[i] == e;
      assert names[i] in Elements(names);
      EntryHasLocations(ds, names[i]);
    }
    forall n | n in NamesOf(ds) ensures exists e :: e in r && e.name == n {
      assert n in Elements(names);
      var i :| 0 <= i < |names| && names[i] == n;
      assert r[i] in r;
    }
  }

  lemma EntryHasLocations(ds: seq<Detection>, n: string)
    requires GroupOf(ds, n) != []
    ensures var e := EntryFor(ds, n);
            e.locations != [] && Distinct(e.locations) && SortedBy(e.locations, LocationLe)
  {
    var sources := SourcesOf(GroupOf(ds, n));
    SortedDedupFacts(sources);
    assert sources[0] in Elements(LocationsOf(GroupOf(ds, n)));
  }

  /** Position `i` of `group` is its first one of least rank. */
  ghost predicate FirstOfLeastRank(group: seq<Detection>, i: nat) {
    && i < |group|
    && (forall k :: 0 <= k < i ==> KindRank(group[k].kind) > KindRank(group[i].kind))
    && (forall k :: i <= k < |group| ==> KindRank(group[k].kind) >= KindRank(group[i].kind))
  }

  /** The chosen kind is that of the first detection of least rank. */
  lemma BestKindIsFirstOfLeastRank(group: seq<Detection>)
    requires group != []
    ensures exists i: nat :: FirstOfLeastRank(group, i) && group[i].kind == BestKind(group)
  {
    var i := BestPosition(group);
  }

  lemma {:induction false} BestPosition(group: seq<Detection>) returns (i: nat)
    requires group != []
    ensures FirstOfLeastRank(group, i) && group[i].kind == BestKind(group)
  {
    var n := |group| - 1;
    if n == 0 { return 0; }
    var k := BestPosition(group[..n]);
    i := if KindRank(group[n].kind) < KindRank(group[k].kind) then n else k;
    ExtendPosition(group, k, i);
  }

  lemma ExtendPosition(group: seq<Detection>, k: nat, i: nat)
    requires |group| > 1 && FirstOfLeastRank(group[..|group| - 1], k)
    requires i == if KindRank(group[|group| - 1].kind) < KindRank(group[k].kind) then |group| - 1 else k
    ensures FirstOfLeastRank(group, i)
  {
    var front := group[..|group| - 1];
    assert forall j :: 0 <= j < |front| ==> front[j] == group[j];
  }

  ghost predicate LeastRank(group: seq<Detection>, d: Detection) {
    d in group && forall e :: e in group ==> KindRank(d.kind) <= KindRank(e.kind)
  }

  lemma BestKindIsLeast(group: seq<Detection>)
    requires group != []
    ensures exists d :: LeastRank(group, d) && d.kind == BestKind(group)
  {
    BestKindIsFirstOfLeastRank(group);
    var i: nat :| FirstOfLeastRank(group, i) && group[i].kind == BestKind(group);
    assert LeastRank(group, group[i]);
  }

  /** A detection of least rank in front decides the kind. */
  lemma FrontDecides(group: seq<Detection>)
    requires group != [] && LeastRank(group, group[0])
    ensures BestKind(group) == group[0].kind
  {
    BestKindIsFirstOfLeastRank(group);
    var i: nat :| FirstOfLeastRank(group, i) && group[i].kind == BestKind(group);
    assert group[i] in group;
  }

  lemma SameGroupElements(xs: seq<Detection>, ys: seq<Detection>, n: string)
    requires multiset(xs) == multiset(ys)
    ensures forall d :: d in GroupOf(xs, n) <==> d in GroupOf(ys, n)
    ensures GroupOf(xs, n) != [] <==> GroupOf(ys, n) != []
  {
    GroupMeaning(xs, n);
    GroupMeaning(ys, n);
    forall d ensures d in xs <==> d in ys {
      assert d in xs <==> d in multiset(xs);
      assert d in ys <==> d in multiset(ys);
    }
  }

  ghost predicate ValidSources(ds: seq<Detection>) {
    forall d :: d in ds && d.source.line.Some? ==> d.source.line.value >= 1
  }

  /** The locations do not depend on the order of detections: line numbers start at 1, so no two
      different locations tie. */
  lemma LocationsIgnoreOrder(xs: seq<Detection>, ys: seq<Detection>, n: string)
    requires multiset(xs) == multiset(ys) && n in NamesOf(xs) && ValidSources(xs)
    ensures GroupOf(xs, n) != [] && GroupOf(ys, n) != []
    ensures EntryFor(xs, n).locations == EntryFor(ys, n).locations
  {
    GroupMeaning(xs, n);
    SameGroupElements(xs, ys, n);
    var a, b := SourcesOf(GroupOf(xs, n)), SourcesOf(GroupOf(ys, n));
    SourcesIncluded(GroupOf(xs, n), GroupOf(ys, n));
    SourcesIncluded(GroupOf(ys, n), GroupOf(xs, n));
    SortedDedupFacts(a);
    SortedDedupFacts(b);
    var p, q := LocationsOf(GroupOf(xs, n)), LocationsOf(GroupOf(ys, n));
    SameElementsSameMultiset(p, q);
    forall x, y | x in p && y in p && LocationLe(x, y) && LocationLe(y, x) ensures x == y {
      assert x in Elements(p) && y in Elements(p);
      NoTies(GroupOf(xs, n), x, y);
    }
    SortedPermutationUnique(p, q, LocationLe);
  }

  lemma SourcesIncluded(g: seq<Detection>, h: seq<Detection>)
    requires forall d :: d in g ==> d in h
    ensures Elements(SourcesOf(g)) <= Elements(SourcesOf(h))
  {
    forall l | l in Elements(SourcesOf(g)) ensures l in Elements(SourcesOf(h)) {
      var i :| 0 <= i < |g| && SourcesOf(g)[i] == l;
      assert g[i] in h;
      var k :| 0 <= k < |h| && h[k] == g[i];
      assert SourcesOf(h)[k] == l;
    }
  }

  lemma NoTies(group: seq<Detection>, x: SourceLocation, y: SourceLocation)
    requires ValidSources(group) && x in Elements(SourcesOf(group)) && y in Elements(SourcesOf(group))
    requires LocationLe(x, y) && LocationLe(y, x)
    ensures x == y
  {
    var i :| 0 <= i < |group| && SourcesOf(group)[i] == x;
    var k :| 0 <= k < |group| && SourcesOf(group)[k] == y;
    assert group[i] in group && group[k] in group;
    if x.path != y.path { StringLeAntisymmetric(x.path, y.path); }
  }

  lemma SameElementsSameMultiset<T(!new)>(p: seq<T>, q: seq<T>)
    requires Distinct(p) && Distinct(q) && Elements(p) == Elements(q)
    ensures multiset(p) == multiset(q)
  {
    DistinctByMultiset(p);
    DistinctByMultiset(q);
    forall x ensures multiset(p)[x] == multiset(q)[x] {
      assert x in multiset(p) <==> x in Elements(p);
      assert x in multiset(q) <==> x in Elements(q);
    }
  }

  /** The kind depends on the order of detections exactly when two detections of least rank disagree on
      it. */
  lemma KindIgnoresOrderIff(ds: seq<Detection>, n: string)
    requires n in NamesOf(ds)
    ensures GroupOf(ds, n) != []
    ensures (forall ys: seq<Detection> :: multiset(ys) == multiset(ds) && GroupOf(ys, n) != [] ==>
               BestKind(GroupOf(ys, n)) == BestKind(GroupOf(ds, n))) <==>
            (forall d, e :: LeastRank(GroupOf(ds, n), d) && LeastRank(GroupOf(ds, n), e) ==> d.kind == e.kind)
  {
    GroupMeaning(ds, n);
    var g := GroupOf(ds, n);
    BestKindIsLeast(g);
    if forall d, e :: LeastRank(g, d) && LeastRank(g, e) ==> d.kind == e.kind {
      forall ys: seq<Detection> | multiset(ys) == multiset(ds) && GroupOf(ys, n) != []
        ensures BestKind(GroupOf(ys, n)) == BestKind(g)
      {
        AgreeingKindIsStable(ds, ys, n);
      }
    } else {
      var d, e :| LeastRank(g, d) && LeastRank(g, e) && d.kind != e.kind;
      var x := if d.kind != BestKind(g) then d else e;
      var ys := MovedToFront(ds, x, n);
      assert multiset(ys) == multiset(ds) && GroupOf(ys, n) != [] && BestKind(GroupOf(ys, n)) != BestKind(g);
    }
  }

  lemma AgreeingKindIsStable(ds: seq<Detection>, ys: seq<Detection>, n: string)
    requires multiset(ys) == multiset(ds) && GroupOf(ys, n) != [] && GroupOf(ds, n) != []
    requires forall d, e :: LeastRank(GroupOf(ds, n), d) && LeastRank(GroupOf(ds, n), e) ==> d.kind == e.kind
    ensures BestKind(GroupOf(ys, n)) == BestKind(GroupOf(ds, n))
  {
    SameGroupElements(ys, ds, n);
    BestKindIsLeast(GroupOf(ds, n));
    BestKindIsLeast(GroupOf(ys, n));
    var d :| LeastRank(GroupOf(ds, n), d) && d.kind == BestKind(GroupOf(ds, n));
    var e :| LeastRank(GroupOf(ys, n), e) && e.kind == BestKind(GroupOf(ys, n));
    assert LeastRank(GroupOf(ds, n), e);
  }

  /** A rearrangement in which a detection of least rank comes first. */
  lemma MovedToFront(ds: seq<Detection>, x: Detection, n: string) returns (ys: seq<Detection>)
    requires LeastRank(GroupOf(ds, n), x)
    ensures multiset(ys) == multiset(ds) && GroupOf(ys, n) != [] && BestKind(GroupOf(ys, n)) == x.kind
  {
    GroupMeaning(ds, n);
    var i :| 0 <= i < |ds| && ds[i] == x;
    var rest := ds[..i] + ds[i + 1..];
    ys := [x] + rest;
    assert ds == ds[..i] + [x] + ds[i + 1..];
    assert multiset(ys) == multiset(ds);
    GroupOfFront(x, rest, n);
    SameGroupElements(ys, ds, n);
    FrontDecides(GroupOf(ys, n));
  }

  lemma {:induction false} GroupOfFront(x: Detection, rest: seq<Detection>, n: string)
    requires x.name == n
    ensures GroupOf([x] + rest, n) != [] && GroupOf([x] + rest, n)[0] == x
    decreases |rest|
  {
    if rest == [] {
      assert [x] + rest == [x];
      assert [x][..0] == [];
    } else {
      var k := |rest| - 1;
      GroupOfFront(x, rest[..k], n);
      assert [x] + rest == ([x] + rest[..k]) + [rest[k]];
      GroupSnoc([x] + rest[..k], rest[k], n);
    }
  }

  // ---------------------------------------------------------------- the entry of a name, in plain terms

  /** The four kinds that say more than "an HTTP API" or "something". */
  predicate Specific(kind: ServiceKind) {
    kind.MessageBroker? || kind.ObjectStore? || kind.Cache? || kind.AuthProvider?
  }

  /** `kind` is the specific kind reported first for `n`; else HTTP API, if that is reported; else other. */
  ghost predicate KindReported(ds: seq<Detection>, n: string, kind: ServiceKind) {
    if exists d :: d in ds && d.name == n && Specific(d.kind) then
      exists i: nat :: FirstSpecific(ds, n, i) && ds[i].kind == kind
    else if exists d :: d in ds && d.name == n && d.kind == HttpApi then kind == HttpApi
    else kind == OtherKind
  }

  /** Position `i` is the first to report a specific kind for `n`. */
  ghost predicate FirstSpecific(ds: seq<Detection>, n: string, i: nat) {
    && i < |ds| && ds[i].name == n && Specific(ds[i].kind)
    && forall j :: 0 <= j < i && ds[j].name == n ==> !Specific(ds[j].kind)
  }

  lemma ReportedLater(front: seq<Detection>, d: Detection, n: string, kind: ServiceKind)
    requires KindReported(front, n, kind) && (exists e :: e in front && e.name == n)
    requires d.name == n ==> KindRank(kind) <= KindRank(d.kind)
    ensures KindReported(front + [d], n, kind)
  {
    var ds := front + [d];
    assert forall e :: e in ds <==> e in front || e == d;
    if exists e :: e in front && e.name == n && Specific(e.kind) {
      var i: nat :| FirstSpecific(front, n, i) && front[i].kind == kind;
      assert FirstSpecific(ds, n, i) && ds[i].kind == kind;
    }
  }

  lemma ReportedFirst(front: seq<Detection>, d: Detection, n: string)
    requires d.name == n && forall e :: e in front && e.name == n ==> KindRank(d.kind) < KindRank(e.kind)
    ensures KindReported(front + [d], n, d.kind)
  {
    var ds := front + [d];
    assert forall e :: e in ds <==> e in front || e == d;
    assert ds[|front|] == d;
    if Specific(d.kind) {
      forall j | 0 <= j < |front| && ds[j].name == n ensures !Specific(ds[j].kind) {
        assert ds[j] == front[j] && front[j] in front;
      }
      assert FirstSpecific(ds, n, |front|);
    }
  }

  lemma KindOfOneMore(front: seq<Detection>, d: Detection, n: string)
    requires GroupOf(front, n) != [] && KindReported(front, n, BestKind(GroupOf(front, n)))
    requires forall e :: e in front && e.name == n ==> KindRank(BestKind(GroupOf(front, n))) <= KindRank(e.kind)
    ensures GroupOf(front + [d], n) != [] && KindReported(front + [d], n, BestKind(GroupOf(front + [d], n)))
  {
    var best := BestKind(GroupOf(front, n));
    GroupSnoc(front, d, n);
    GroupMeaning(front, n);
    if d.name == n {
      assert (GroupOf(front, n) + [d])[..|GroupOf(front, n)|] == GroupOf(front, n);
      if KindRank(d.kind) < KindRank(best) {
        ReportedFirst(front, d, n);
      } else {
        ReportedLater(front, d, n, best);
      }
    } else {
      ReportedLater(front, d, n, best);
    }
  }

  lemma BestIsLeastReported(ds: seq<Detection>, n: string)
    requires GroupOf(ds, n) != []
    ensures forall e :: e in ds && e.name == n ==> KindRank(BestKind(GroupOf(ds, n))) <= KindRank(e.kind)
  {
    GroupMeaning(ds, n);
    BestKindIsLeast(GroupOf(ds, n));
  }

  lemma {:induction false} BestKindIsReported(ds: seq<Detection>, n: string)
    requires GroupOf(ds, n) != []
    ensures KindReported(ds, n, BestKind(GroupOf(ds, n)))
  {
    var k := |ds| - 1;
    var front, d := ds[..k], ds[k];
    assert ds == front + [d];
    if GroupOf(front, n) == [] {
      GroupMeaning(front, n);
      GroupSnoc(front, d, n);
      ReportedFirst(front, d, n);
    } else {
      BestKindIsReported(front, n);
      BestIsLeastReported(front, n);
      KindOfOneMore(front, d, n);
    }
  }

  /** By path, then by line, a missing line first. */
  predicate Before(a: SourceLocation, b: SourceLocation) {
    if a.path == b.path then
      (if a.line.Some? then a.line.value else 0) <= (if b.line.Some? then b.line.value else 0)
    else StringLe(a.path, b.path)
  }

  /** One entry for exactly each name detected. Its kind is the first specific one reported for the name,
      else HTTP API if that is reported, else other; its locations are exactly the sources reported for
      it, each once, by path and line. */
  lemma AggregatedMeaning(ds: seq<Detection>)
    ensures var r := Aggregated(ds);
            && (forall n :: Reported(ds, n) <==> Listed(r, n))
            && (forall i, j :: 0 <= i < j < |r| ==> StringLe(r[i].name, r[j].name) && r[i].name != r[j].name)
            && (forall e :: e in r ==> KindReported(ds, e.name, e.kind) && SourcesListed(ds, e))
  {
    var names, r := SortedNames(ds), Aggregated(ds);
    NamesAreReported(ds);
    forall e | e in r ensures KindReported(ds, e.name, e.kind) && SourcesListed(ds, e) {
      var i :| 0 <= i < |r| && r[i] == e;
      assert names[i] in Elements(names) && names[i] in names;
      BestKindIsReported(ds, names[i]);
      EntryListsSources(ds, names[i]);
    }
  }

  ghost predicate Reported(ds: seq<Detection>, n: string) {
    exists d :: d in ds && d.name == n
  }

  ghost predicate Listed(r: seq<ServiceDependency>, n: string) {
    exists e :: e in r && e.name == n
  }

  lemma NamesAreReported(ds: seq<Detection>)
    ensures var r := Aggregated(ds);
            && (forall n :: Reported(ds, n) <==> Listed(r, n))
            && (forall i, j :: 0 <= i < j < |r| ==> StringLe(r[i].name, r[j].name) && r[i].name != r[j].name)
  {
    AggregatedIsValid(ds);
    forall n ensures Reported(ds, n) <==> n in NamesOf(ds) {}
  }

  ghost predicate SourcesListed(ds: seq<Detection>, e: ServiceDependency) {
    && Distinct(e.locations)
    && (forall l :: l in e.locations <==> exists d :: d in ds && d.name == e.name && d.source == l)
    && (forall i, j :: 0 <= i < j < |e.locations| ==> Before(e.locations[i], e.locations[j]))
  }

  lemma SourceReportedIff(ds: seq<Detection>, n: string, l: SourceLocation)
    ensures l in SourcesOf(GroupOf(ds, n)) <==> exists d :: d in ds && d.name == n && d.source == l
  {
    var group := GroupOf(ds, n);
    var sources := SourcesOf(group);
    GroupMeaning(ds, n);
    if l in sources {
      var i :| 0 <= i < |sources| && sources[i] == l;
      assert group[i] in group;
    }
    if d :| d in ds && d.name == n && d.source == l {
      var i :| 0 <= i < |group| && group[i] == d;
      assert sources[i] == l;
    }
  }

  lemma EntryListsSources(ds: seq<Detection>, n: string)
    requires GroupOf(ds, n) != []
    ensures SourcesListed(ds, EntryFor(ds, n))
  {
    var locations, sources := LocationsOf(GroupOf(ds, n)), SourcesOf(GroupOf(ds, n));
    SortedDedupFacts(sources);
    forall l ensures l in locations <==> exists d :: d in ds && d.name == n && d.source == l {
      assert l in Elements(locations) <==> l in Elements(sources);
      SourceReportedIff(ds, n, l);
    }
    SortedIsBefore(locations);
  }

  lemma SortedIsBefore(xs: seq<SourceLocation>)
    requires SortedBy(xs, LocationLe)
    ensures forall i, j :: 0 <= i < j < |xs| ==> Before(xs[i], xs[j])
  {
    forall i, j | 0 <= i < j < |xs| ensures Before(xs[i], xs[j]) {
      assert LocationLe(xs[i], xs[j]);
    }
  }
}
