/** Coalescing of Go service detections: the first detection of a name fixes its place and kind, later
    ones add source locations. */
module GoServices {
  import opened Base
  import opened Models
  import opened Ordering
  import opened FirstOccurrences

  type Detection = ServiceDependency

  // ---------------------------------------------------------------- specification

  function NamesIn(ds: seq<Detection>): (names: seq<string>)
    ensures |names| == |ds|
    ensures forall i :: 0 <= i < |ds| ==> names[i] == ds[i].name
  {
    seq(|ds|, i requires 0 <= i < |ds| => ds[i].name)
  }

  /** The kind of the first detection named `n`. */
  function KindIn(ds: seq<Detection>, n: string): Option<ServiceKind> {
    if ds == [] then None
    else
      var before, d := KindIn(ds[..|ds| - 1], n), ds[|ds| - 1];
      if before.Some? then before else if d.name == n then Some(d.kind) else None
  }

  /** All locations of the detections named `n`, in order. */
  function LocationsIn(ds: seq<Detection>, n: string): seq<SourceLocation> {
    if ds == [] then []
    else
      var before, d := LocationsIn(ds[..|ds| - 1], n), ds[|ds| - 1];
      if d.name == n then before + d.locations else before
  }

  /** The coalesced detection named `n`, if any detection has that name. */
  function EntryOf(ds: seq<Detection>, n: string): (e: Option<ServiceDependency>) {
    var kind := KindIn(ds, n);
    if kind.None? then None else Some(ServiceDependency(n, kind.value, Dedup(LocationsIn(ds, n))))
  }

  lemma {:induction false} KnownIff(ds: seq<Detection>, n: string)
    ensures KindIn(ds, n).Some? <==> n in NamesIn(ds)
  {
    if ds != [] {
      var k := |ds| - 1;
      KnownIff(ds[..k], n);
      assert NamesIn(ds) == NamesIn(ds[..k]) + [ds[k].name];
    }
  }

  lemma NamesAreKnown(ds: seq<Detection>)
    ensures forall n :: n in Dedup(NamesIn(ds)) ==> EntryOf(ds, n).Some?
  {
    DedupElements(NamesIn(ds));
    forall n | n in NamesIn(ds) ensures KindIn(ds, n).Some? { KnownIff(ds, n); }
  }

  function EntriesFor(ds: seq<Detection>, names: seq<string>): (r: seq<ServiceDependency>)
    requires forall n :: n in names ==> EntryOf(ds, n).Some?
    ensures |r| == |names|
    ensures forall i :: 0 <= i < |r| ==> r[i].name == names[i] && EntryOf(ds, names[i]) == Some(r[i])
  {
    if names == [] then []
    else EntriesFor(ds, names[..|names| - 1]) + [EntryOf(ds, names[|names| - 1]).value]
  }

  /** One entry per name, in the order of first detection. */
  function Coalesce(ds: seq<Detection>): (r: seq<ServiceDependency>)
    ensures NamesIn(r) == Dedup(NamesIn(ds))
    ensures forall i :: 0 <= i < |r| ==> EntryOf(ds, r[i].name) == Some(r[i])
  {
    NamesAreKnown(ds);
    var r := EntriesFor(ds, Dedup(NamesIn(ds)));
    assert NamesIn(r) == Dedup(NamesIn(ds));
    r
  }

  // ---------------------------------------------------------------- the loop

  datatype Group = Group(kind: ServiceKind, locations: seq<SourceLocation>, seen: set<SourceLocation>)

  /** The dictionary after the detections `ds`, its keys in insertion order. */
  ghost predicate Collected(ds: seq<Detection>, order: seq<string>, groups: map<string, Group>) {
    && order == Dedup(NamesIn(ds))
    && (forall n :: n in groups <==> n in order)
    && (forall n :: n in groups ==> IsGroup(ds, n, groups[n]))
  }

  ghost predicate IsGroup(ds: seq<Detection>, n: string, g: Group) {
    EntryOf(ds, n) == Some(ServiceDependency(n, g.kind, g.locations)) && g.seen == Elements(g.locations)
  }

  lemma EntrySnoc(ds: seq<Detection>, d: Detection, n: string)
    ensures KindIn(ds + [d], n) ==
            if KindIn(ds, n).Some? then KindIn(ds, n) else if d.name == n then Some(d.kind) else None
    ensures LocationsIn(ds + [d], n) == if d.name == n then LocationsIn(ds, n) + d.locations else LocationsIn(ds, n)
    ensures NamesIn(ds + [d]) == NamesIn(ds) + [d.name]
  {
    assert (ds + [d])[..|ds|] == ds;
  }

  lemma {:induction false} UnknownHasNoLocations(ds: seq<Detection>, n: string)
    requires KindIn(ds, n).None?
    ensures LocationsIn(ds, n) == []
  {
    if ds != [] { UnknownHasNoLocations(ds[..|ds| - 1], n); }
  }

  /** One pass of the outer loop. */
  method AddDetection(ghost ds: seq<Detection>, d: Detection, order: seq<string>, groups: map<string, Group>)
    returns (order': seq<string>, groups': map<string, Group>)
    requires Collected(ds, order, groups)
    ensures Collected(ds + [d], order', groups')
  {
    ghost var n := d.name;
    KnownIff(ds, n);
    DedupElements(NamesIn(ds));
    DedupSnoc(NamesIn(ds), n);
    EntrySnoc(ds, d, n);
    order', groups' := order, groups;
    var kind, known, seen := d.kind, [], {};
    if d.name in groups {
      assert IsGroup(ds, n, groups[n]);
      kind, known, seen := groups[d.name].kind, groups[d.name].locations, groups[d.name].seen;
    } else {
      UnknownHasNoLocations(ds, n);
      order' := order + [d.name];
    }
    assert known == Dedup(LocationsIn(ds, n)) && seen == Elements(known);
    known, seen := DedupSource(d.locations, known, seen, LocationsIn(ds, n));
    groups' := groups[d.name := Group(kind, known, seen)];
    assert IsGroup(ds + [d], n, groups'[n]);
    forall m | m in groups' && m != n ensures IsGroup(ds + [d], m, groups'[m]) {
      EntrySnoc(ds, d, m);
      assert IsGroup(ds, m, groups[m]);
    }
  }

  method CollectDetections(ds: seq<Detection>) returns (order: seq<string>, groups: map<string, Group>)
    ensures Collected(ds, order, groups)
  {
    order, groups := [], map[];
    for i := 0 to |ds|
      invariant Collected(ds[..i], order, groups)
    {
      assert ds[..i + 1] == ds[..i] + [ds[i]];
      order, groups := AddDetection(ds[..i], ds[i], order, groups);
    }
    assert ds[..|ds|] == ds;
  }

  lemma GroupIsEntry(ds: seq<Detection>, order: seq<string>, groups: map<string, Group>, i: nat)
    requires Collected(ds, order, groups) && i < |order|
    ensures order[i] in groups
    ensures EntryOf(ds, order[i]) ==
            Some(ServiceDependency(order[i], groups[order[i]].kind, groups[order[i]].locations))
  {
    assert order[i] in order;
    assert IsGroup(ds, order[i], groups[order[i]]);
  }

  method CoalesceDetections(ds: seq<Detection>) returns (r: seq<ServiceDependency>)
    ensures r == Coalesce(ds)
  {
    var order, groups := CollectDetections(ds);
    NamesAreKnown(ds);
    r := [];
    for i := 0 to |order|
      invariant r == EntriesFor(ds, order[..i])
    {
      GroupIsEntry(ds, order, groups, i);
      assert order[..i + 1][..i] == order[..i];
      r := r + [ServiceDependency(order[i], groups[order[i]].kind, groups[order[i]].locations)];
    }
    assert order[..|order|] == order;
  }

  // ---------------------------------------------------------------- what coalescing means

  lemma EntryIsValid(ds: seq<Detection>, e: ServiceDependency)
    requires forall d :: d in ds ==> d.name != "" && d.locations != []
    requires EntryOf(ds, e.name) == Some(e)
    ensures e.name != "" && e.locations != [] && Distinct(e.locations)
  {
    KnownIff(ds, e.name);
    var k :| 0 <= k < |ds| && NamesIn(ds)[k] == e.name;
    LocationsIncluded(ds, k);
    DedupElements(LocationsIn(ds, e.name));
    DedupDistinct(LocationsIn(ds, e.name));
    assert ds[k] in ds && ds[k].locations[0] in e.locations;
  }

  /** Valid detections coalesce into a valid section: unique names, non-empty duplicate-free locations. */
  lemma CoalescedIsValid(ds: seq<Detection>)
    requires forall d :: d in ds ==> d.name != "" && d.locations != []
    ensures ValidServices(Coalesce(ds)) && forall e :: e in Coalesce(ds) ==> Distinct(e.locations)
  {
    var r := Coalesce(ds);
    DedupDistinct(NamesIn(ds));
    forall i, j | 0 <= i < j < |r| ensures r[i].name != r[j].name {
      assert NamesIn(r)[i] != NamesIn(r)[j];
    }
    forall e | e in r ensures e.name != "" && e.locations != [] && Distinct(e.locations) {
      EntryIsValid(ds, e);
    }
  }

  lemma {:induction false} LocationsIncluded(ds: seq<Detection>, k: nat)
    requires k < |ds|
    ensures forall l :: l in ds[k].locations ==> l in LocationsIn(ds, ds[k].name)
  {
    var n := |ds| - 1;
    if k < n { LocationsIncluded(ds[..n], k); }
  }

  /** Two entries of one name in one: the first kind, then all locations once. */
  function Combine(a: Option<ServiceDependency>, b: Option<ServiceDependency>): Option<ServiceDependency> {
    if a.None? then b
    else if b.None? then a
    else Some(ServiceDependency(a.value.name, a.value.kind, Dedup(a.value.locations + b.value.locations)))
  }

  lemma {:induction false} KindAppend(xs: seq<Detection>, ys: seq<Detection>, n: string)
    ensures KindIn(xs + ys, n) == if KindIn(xs, n).Some? then KindIn(xs, n) else KindIn(ys, n)
    decreases |ys|
  {
    if ys == [] {
      assert xs + ys == xs;
    } else {
      var k := |ys| - 1;
      KindAppend(xs, ys[..k], n);
      assert (xs + ys)[..|xs + ys| - 1] == xs + ys[..k];
    }
  }

  lemma {:induction false} LocationsAppend(xs: seq<Detection>, ys: seq<Detection>, n: string)
    ensures LocationsIn(xs + ys, n) == LocationsIn(xs, n) + LocationsIn(ys, n)
    decreases |ys|
  {
    if ys == [] {
      assert xs + ys == xs;
    } else {
      var k := |ys| - 1;
      LocationsAppend(xs, ys[..k], n);
      assert (xs + ys)[..|xs + ys| - 1] == xs + ys[..k];
      assert (LocationsIn(xs, n) + LocationsIn(ys[..k], n)) + ys[k].locations ==
             LocationsIn(xs, n) + (LocationsIn(ys[..k], n) + ys[k].locations);
    }
  }

  lemma NamesAppend(xs: seq<Detection>, ys: seq<Detection>)
    ensures NamesIn(xs + ys) == NamesIn(xs) + NamesIn(ys)
  {}

  /** Per name, coalescing a concatenation combines the coalesced parts. */
  lemma EntryConcat(xs: seq<Detection>, ys: seq<Detection>, n: string)
    ensures EntryOf(xs + ys, n) == Combine(EntryOf(xs, n), EntryOf(ys, n))
  {
    KindAppend(xs, ys, n);
    LocationsAppend(xs, ys, n);
    DedupParts(LocationsIn(xs, n), LocationsIn(ys, n));
    if KindIn(xs, n).None? {
      UnknownHasNoLocations(xs, n);
      assert [] + LocationsIn(ys, n) == LocationsIn(ys, n);
    }
    if KindIn(ys, n).None? {
      UnknownHasNoLocations(ys, n);
      assert LocationsIn(xs, n) + [] == LocationsIn(xs, n);
    }
  }

  /** Entries with distinct names are found as they are. */
  lemma {:induction false} EntryOfUnique(ds: seq<Detection>, n: string)
    requires Distinct(NamesIn(ds)) && forall d :: d in ds ==> Dedup(d.locations) == d.locations
    ensures EntryOf(ds, n).Some? <==> exists i :: 0 <= i < |ds| && ds[i].name == n
    ensures forall i :: 0 <= i < |ds| && ds[i].name == n ==> EntryOf(ds, n) == Some(ds[i])
  {
    if ds != [] {
      var k := |ds| - 1;
      assert ds == ds[..k] + [ds[k]];
      assert forall i, j :: 0 <= i < j < |ds| ==> NamesIn(ds)[i] != NamesIn(ds)[j];
      assert Distinct(NamesIn(ds[..k]));
      EntryOfUnique(ds[..k], n);
      EntrySnoc(ds[..k], ds[k], n);
      if ds[k].name == n {
        assert EntryOf(ds[..k], n).None?;
        UnknownHasNoLocations(ds[..k], n);
        assert [] + ds[k].locations == ds[k].locations;
      }
    }
  }

  /** Coalescing again changes no entry. */
  lemma CoalesceKeepsEntries(ds: seq<Detection>, n: string)
    ensures EntryOf(Coalesce(ds), n) == EntryOf(ds, n)
  {
    var r := Coalesce(ds);
    DedupDistinct(NamesIn(ds));
    DedupElements(NamesIn(ds));
    forall e | e in r ensures Dedup(e.locations) == e.locations {
      var i :| 0 <= i < |r| && r[i] == e;
      DedupIdempotent(LocationsIn(ds, e.name));
    }
    EntryOfUnique(r, n);
    KnownIff(ds, n);
    if n in NamesIn(ds) {
      assert n in NamesIn(r);
      var i :| 0 <= i < |r| && NamesIn(r)[i] == n;
    }
  }

  lemma SameEntriesSameList(xs: seq<Detection>, ys: seq<Detection>)
    requires Dedup(NamesIn(xs)) == Dedup(NamesIn(ys))
    requires forall n :: EntryOf(xs, n) == EntryOf(ys, n)
    ensures Coalesce(xs) == Coalesce(ys)
  {
    var a, b := Coalesce(xs), Coalesce(ys);
    assert |a| == |NamesIn(a)| == |NamesIn(b)| == |b|;
    forall i | 0 <= i < |a| ensures a[i] == b[i] {
      assert a[i].name == NamesIn(a)[i] == NamesIn(b)[i] == b[i].name;
    }
  }

  /** Coalescing in parts and then together is coalescing once. */
  lemma CoalesceConcat(xs: seq<Detection>, ys: seq<Detection>)
    ensures Coalesce(xs + ys) == Coalesce(Coalesce(xs) + Coalesce(ys))
  {
    var a, b := Coalesce(xs), Coalesce(ys);
    NamesAppend(xs, ys);
    NamesAppend(a, b);
    DedupParts(NamesIn(xs), NamesIn(ys));
    forall n ensures EntryOf(xs + ys, n) == EntryOf(a + b, n) {
      EntryConcat(xs, ys, n);
      EntryConcat(a, b, n);
      CoalesceKeepsEntries(xs, n);
      CoalesceKeepsEntries(ys, n);
    }
    SameEntriesSameList(xs + ys, a + b);
  }

  // ---------------------------------------------------------------- the entry of a name, in plain terms

  /** Position `i` is the first detection named `n`. */
  ghost predicate FirstNamed(ds: seq<Detection>, n: string, i: nat) {
    i < |ds| && ds[i].name == n && forall k :: 0 <= k < i ==> ds[k].name != n
  }

  lemma {:induction false} KindIsFirst(ds: seq<Detection>, n: string, i: nat)
    requires FirstNamed(ds, n, i)
    ensures KindIn(ds, n) == Some(ds[i].kind)
  {
    var k := |ds| - 1;
    if i < k {
      KindIsFirst(ds[..k], n, i);
    } else {
      KnownIff(ds[..k], n);
    }
  }

  lemma {:induction false} LocatedIff(ds: seq<Detection>, n: string, l: SourceLocation)
    ensures l in LocationsIn(ds, n) <==> exists d :: d in ds && d.name == n && l in d.locations
  {
    if ds != [] {
      var k := |ds| - 1;
      LocatedIff(ds[..k], n, l);
      assert ds == ds[..k] + [ds[k]];
    }
  }

  lemma FirstNamedIsFirst(ds: seq<Detection>, n: string, i: nat)
    ensures FirstNamed(ds, n, i) <==> FirstAt(NamesIn(ds), n, i)
  {
    var names := NamesIn(ds);
    if i < |ds| {
      assert forall k :: 0 <= k < i ==> names[..i][k] == ds[k].name;
    }
  }

  /** One entry for exactly each name detected, in the order of first detections; its kind is that of the
      first one, its locations are those of all of them, each once. */
  lemma CoalescedMeaning(ds: seq<Detection>)
    ensures var r := Coalesce(ds);
            && (forall n :: n in NamesIn(r) <==> exists d :: d in ds && d.name == n)
            && (forall i, j, a: nat, b: nat ::
                  0 <= i < j < |r| && FirstNamed(ds, r[i].name, a) && FirstNamed(ds, r[j].name, b) ==> a < b)
            && (forall e, i: nat :: e in r && FirstNamed(ds, e.name, i) ==> e.kind == ds[i].kind)
            && (forall e :: e in r ==> Distinct(e.locations) && SourcesListed(ds, e))
  {
    var r, names := Coalesce(ds), NamesIn(ds);
    DedupKeepsFirstOccurrences(names);
    DedupElements(names);
    forall n ensures n in NamesIn(r) <==> exists d :: d in ds && d.name == n {
      NameIsDetected(ds, n);
    }
    forall i, j, a: nat, b: nat
      | 0 <= i < j < |r| && FirstNamed(ds, r[i].name, a) && FirstNamed(ds, r[j].name, b)
      ensures a < b
    {
      FirstNamedIsFirst(ds, r[i].name, a);
      FirstNamedIsFirst(ds, r[j].name, b);
      assert NamesIn(r)[i] == r[i].name && NamesIn(r)[j] == r[j].name;
    }
    forall e, i: nat | e in r && FirstNamed(ds, e.name, i) ensures e.kind == ds[i].kind {
      KindIsFirst(ds, e.name, i);
    }
    forall e | e in r ensures Distinct(e.locations) && SourcesListed(ds, e) {
      DedupDistinct(LocationsIn(ds, e.name));
      DedupElements(LocationsIn(ds, e.name));
      forall l ensures l in e.locations <==> exists d :: d in ds && d.name == e.name && l in d.locations {
        LocatedIff(ds, e.name, l);
      }
    }
  }

  ghost predicate SourcesListed(ds: seq<Detection>, e: ServiceDependency) {
    forall l :: l in e.locations <==> exists d :: d in ds && d.name == e.name && l in d.locations
  }

  lemma NameIsDetected(ds: seq<Detection>, n: string)
    ensures n in NamesIn(ds) <==> exists d :: d in ds && d.name == n
  {
    if n in NamesIn(ds) {
      var i :| 0 <= i < |ds| && NamesIn(ds)[i] == n;
      assert ds[i] in ds;
    }
    if d :| d in ds && d.name == n {
      var i :| 0 <= i < |ds| && ds[i] == d;
      assert NamesIn(ds)[i] == n;
    }
  }

  /** A single detection coalesces into itself, its locations once each, in order: with `EntryConcat` this
      determines every entry. */
  lemma EntryOfOne(d: Detection, n: string)
    ensures EntryOf([d], n) == if d.name == n then Some(d.(locations := Dedup(d.locations))) else None
  {
    EntrySnoc([], d, n);
    assert [] + [d] == [d] && [] + d.locations == d.locations;
  }
}
