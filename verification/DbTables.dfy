/** Aggregation of table detections: one entry per table, its mode the join of what was observed. */
module DbTables {
  import opened Base
  import opened Models
  import opened Ordering
  import opened FirstOccurrences

  datatype Detection = Detection(name: string, mode: AccessMode, location: SourceLocation)

  // ---------------------------------------------------------------- the lattice of modes

  /** Unknown below everything, ReadWrite above everything, Read and Write side by side. */
  predicate ModeLe(a: AccessMode, b: AccessMode) {
    a == b || a == Unknown || b == ReadWrite
  }

  function Join(a: AccessMode, b: AccessMode): AccessMode {
    if ModeLe(a, b) then b else if ModeLe(b, a) then a else ReadWrite
  }

  /** `Join` is the least upper bound, hence associative, commutative and idempotent. */
  lemma JoinIsLeastUpperBound(a: AccessMode, b: AccessMode, c: AccessMode)
    ensures ModeLe(a, Join(a, b)) && ModeLe(b, Join(a, b))
    ensures ModeLe(a, c) && ModeLe(b, c) ==> ModeLe(Join(a, b), c)
    ensures Join(a, b) == Join(b, a) && Join(a, a) == a && Join(Join(a, b), c) == Join(a, Join(b, c))
  {}

  /** The branches of the aggregator on the set of observed modes. */
  function Resolve(observed: set<AccessMode>): AccessMode {
    if ReadWrite in observed || (Read in observed && Write in observed) then ReadWrite
    else if Write in observed then Write
    else if Read in observed then Read
    else if Unknown in observed then Unknown
    else Read
  }

  /** On non-empty observations the branches compute the join. */
  lemma ResolveIsJoin(a: set<AccessMode>, b: set<AccessMode>)
    requires a != {} && b != {}
    ensures Resolve(a + b) == Join(Resolve(a), Resolve(b))
  {
    var x :| x in a;
    var y :| y in b;
    assert x.Read? || x.Write? || x.ReadWrite? || x.Unknown?;
    assert y.Read? || y.Write? || y.ReadWrite? || y.Unknown?;
  }

  // ---------------------------------------------------------------- what is collected per table

  function NamesOf(ds: seq<Detection>): set<string> {
    set d | d in ds && d.name != "" :: d.name
  }

  function ModesSeen(ds: seq<Detection>, name: string): set<AccessMode> {
    set d | d in ds && d.name == name :: d.mode
  }

  function LocationsSeen(ds: seq<Detection>, name: string): seq<SourceLocation> {
    if ds == [] then []
    else
      var before, d := LocationsSeen(ds[..|ds| - 1], name), ds[|ds| - 1];
      if d.name == name then before + [d.location] else before
  }

  function EntryFor(ds: seq<Detection>, name: string): TableDependency {
    TableDependency(name, Resolve(ModesSeen(ds, name)), Dedup(LocationsSeen(ds, name)))
  }

  ghost function SortedNames(ds: seq<Detection>): (names: seq<string>)
    ensures IsSortedSet(names, NamesOf(ds), StringLe)
  {
    StringLeTotal();
    SortedSet(NamesOf(ds), StringLe)
  }

  function EntriesFor(ds: seq<Detection>, names: seq<string>): (deps: seq<TableDependency>)
    ensures |deps| == |names|
    ensures forall i :: 0 <= i < |deps| ==> deps[i] == EntryFor(ds, names[i])
  {
    seq(|names|, i requires 0 <= i < |names| => EntryFor(ds, names[i]))
  }

  ghost function Aggregated(ds: seq<Detection>): seq<TableDependency> {
    EntriesFor(ds, SortedNames(ds))
  }

  ghost predicate ModesCollected(ds: seq<Detection>, modes: map<string, set<AccessMode>>) {
    modes.Keys == NamesOf(ds) && forall n :: n in modes ==> modes[n] == ModesSeen(ds, n)
  }

  ghost predicate LocationsCollected(ds: seq<Detection>, locations: map<string, seq<SourceLocation>>) {
    locations.Keys == NamesOf(ds) && forall n :: n in locations ==> locations[n] == Dedup(LocationsSeen(ds, n))
  }

  /** The seen-keys dictionary mirrors the locations. */
  ghost predicate SeenMirrors(locations: map<string, seq<SourceLocation>>, seen: map<string, set<SourceLocation>>) {
    seen.Keys == locations.Keys && forall n :: n in seen ==> seen[n] == Elements(locations[n])
  }

  lemma NamesSnoc(ds: seq<Detection>, d: Detection)
    ensures NamesOf(ds + [d]) == if d.name == "" then NamesOf(ds) else NamesOf(ds) + {d.name}
  {
    assert forall e :: e in ds + [d] <==> e in ds || e == d;
  }

  lemma SeenSnoc(ds: seq<Detection>, d: Detection, n: string)
    ensures ModesSeen(ds + [d], n) == if n == d.name then ModesSeen(ds, n) + {d.mode} else ModesSeen(ds, n)
    ensures LocationsSeen(ds + [d], n) ==
            if n == d.name then LocationsSeen(ds, n) + [d.location] else LocationsSeen(ds, n)
  {
    assert (ds + [d])[..|ds|] == ds;
    assert forall e :: e in ds + [d] <==> e in ds || e == d;
  }

  lemma NothingSeen(ds: seq<Detection>, name: string)
    requires name != "" && name !in NamesOf(ds)
    ensures ModesSeen(ds, name) == {} && LocationsSeen(ds, name) == []
  {
    if ds != [] {
      var n := |ds| - 1;
      assert ds == ds[..n] + [ds[n]];
      NamesSnoc(ds[..n], ds[n]);
      SeenSnoc(ds[..n], ds[n], name);
      NothingSeen(ds[..n], name);
    }
  }

  /** A dictionary's entry, or the empty one it starts from. */
  function Entry<T>(m: map<string, T>, name: string, empty: T): T {
    if name in m then m[name] else empty
  }

  lemma ModesStep(ds: seq<Detection>, d: Detection, modes: map<string, set<AccessMode>>)
    requires ModesCollected(ds, modes)
    ensures d.name != "" ==> ModesCollected(ds + [d], modes[d.name := Entry(modes, d.name, {}) + {d.mode}])
    ensures d.name == "" ==> ModesCollected(ds + [d], modes)
  {
    NamesSnoc(ds, d);
    forall n ensures ModesSeen(ds + [d], n) == if n == d.name then ModesSeen(ds, n) + {d.mode} else ModesSeen(ds, n) {
      SeenSnoc(ds, d, n);
    }
    if d.name != "" && d.name !in modes { NothingSeen(ds, d.name); }
  }

  function Extended(locations: map<string, seq<SourceLocation>>, d: Detection): seq<SourceLocation> {
    var known := Entry(locations, d.name, []);
    if d.location in known then known else known + [d.location]
  }

  lemma ExtendedIsDedup(ds: seq<Detection>, d: Detection, locations: map<string, seq<SourceLocation>>)
    requires LocationsCollected(ds, locations) && d.name != ""
    ensures Extended(locations, d) == Dedup(LocationsSeen(ds + [d], d.name))
  {
    SeenSnoc(ds, d, d.name);
    if d.name !in locations { NothingSeen(ds, d.name); }
    assert Entry(locations, d.name, []) == Dedup(LocationsSeen(ds, d.name));
    DedupSnoc(LocationsSeen(ds, d.name), d.location);
  }

  lemma LocationsStep(ds: seq<Detection>, d: Detection, locations: map<string, seq<SourceLocation>>)
    requires LocationsCollected(ds, locations)
    ensures d.name != "" ==> LocationsCollected(ds + [d], locations[d.name := Extended(locations, d)])
    ensures d.name == "" ==> LocationsCollected(ds + [d], locations)
  {
    NamesSnoc(ds, d);
    if d.name != "" { ExtendedIsDedup(ds, d, locations); }
    forall n | n != d.name ensures LocationsSeen(ds + [d], n) == LocationsSeen(ds, n) {
      SeenSnoc(ds, d, n);
    }
    assert "" !in NamesOf(ds);
  }

  lemma SeenStep(locations: map<string, seq<SourceLocation>>, seen: map<string, set<SourceLocation>>, d: Detection)
    requires SeenMirrors(locations, seen)
    ensures Entry(seen, d.name, {}) == Elements(Entry(locations, d.name, []))
    ensures SeenMirrors(locations[d.name := Extended(locations, d)],
                        seen[d.name := Entry(seen, d.name, {}) + {d.location}])
  {
    var known := Entry(locations, d.name, []);
    assert Entry(seen, d.name, {}) == Elements(known);
    assert Elements(known + [d.location]) == Elements(known) + {d.location};
    assert Elements(Extended(locations, d)) == Elements(known) + {d.location};
  }

  /** The collecting loop. */
  method Collect(ds: seq<Detection>) returns (modes: map<string, set<AccessMode>>,
        locations: map<string, seq<SourceLocation>>)
    ensures ModesCollected(ds, modes) && LocationsCollected(ds, locations)
  {
    modes, locations := map[], map[];
    var seen: map<string, set<SourceLocation>> := map[];
    for i := 0 to |ds|
      invariant ModesCollected(ds[..i], modes) && LocationsCollected(ds[..i], locations) && SeenMirrors(locations, seen)
    {
      var d := ds[i];
      assert ds[..i + 1] == ds[..i] + [d];
      ModesStep(ds[..i], d, modes);
      LocationsStep(ds[..i], d, locations);
      SeenStep(locations, seen, d);
      if d.name == "" { continue; }
      modes := modes[d.name := Entry(modes, d.name, {}) + {d.mode}];
      var keys := Entry(seen, d.name, {});
      seen := seen[d.name := keys + {d.location}];
      locations := locations[d.name := if d.location !in keys then Entry(locations, d.name, []) + [d.location]
                                       else Entry(locations, d.name, [])];
    }
    assert ds[..|ds|] == ds;
  }

  lemma EntriesSnoc(ds: seq<Detection>, names: seq<string>, i: nat)
    requires i < |names|
    ensures EntriesFor(ds, names[..i + 1]) == EntriesFor(ds, names[..i]) + [EntryFor(ds, names[i])]
  {}

  method Aggregate(ds: seq<Detection>) returns (deps: seq<TableDependency>)
    ensures deps == Aggregated(ds)
  {
    StringLeTotal();
    var modes, locations := Collect(ds);
    var names := SortedList(modes.Keys, StringLe);
    SortedSetUnique(names, SortedNames(ds), StringLe);
    deps := [];
    for i := 0 to |names|
      invariant deps == EntriesFor(ds, names[..i])
    {
      var n := names[i];
      assert n in Elements(names);
      EntriesSnoc(ds, names, i);
      assert modes[n] == ModesSeen(ds, n) && locations[n] == Dedup(LocationsSeen(ds, n));
      deps := deps + [TableDependency(n, Resolve(modes[n]), locations[n])];
    }
    assert names[..|names|] == names;
  }

  // ---------------------------------------------------------------- what aggregation means

  lemma {:induction false} LocatedIff(ds: seq<Detection>, name: string)
    ensures LocationsSeen(ds, name) != [] <==> exists d :: d in ds && d.name == name
    ensures ModesSeen(ds, name) != {} <==> exists d :: d in ds && d.name == name
  {
    if ds != [] {
      var n := |ds| - 1;
      LocatedIff(ds[..n], name);
      assert ds == ds[..n] + [ds[n]];
      SeenSnoc(ds[..n], ds[n], name);
    }
    if d :| d in ds && d.name == name { assert d.mode in ModesSeen(ds, name); }
  }

  /** The result is a valid table section, strictly sorted by name, with duplicate-free locations, one
      entry for exactly the non-empty names detected. */
  lemma AggregatedIsValid(ds: seq<Detection>)
    ensures var deps := Aggregated(ds);
            && ValidTables(deps)
            && (forall i, j ::
                  0 <= i < j < |deps| ==> StringLe(deps[i].name, deps[j].name) && deps[i].name != deps[j].name)
            && (forall dep :: dep in deps ==> Distinct(dep.locations))
            && (forall n :: (exists dep :: dep in deps && dep.name == n) <==> n in NamesOf(ds))
  {
    var names, deps := SortedNames(ds), Aggregated(ds);
    forall dep | dep in deps ensures dep.name != "" && dep.locations != [] && Distinct(dep.locations) {
      var i :| 0 <= i < |deps| && deps[i] == dep;
      assert names[i] in Elements(names);
      LocatedIff(ds, names[i]);
      DedupElements(LocationsSeen(ds, names[i]));
      DedupDistinct(LocationsSeen(ds, names[i]));
      assert LocationsSeen(ds, names[i])[0] in dep.locations;
    }
    forall n ensures (exists dep :: dep in deps && dep.name == n) <==> n in NamesOf(ds) {
      if n in NamesOf(ds) {
        assert n in Elements(names);
        var i :| 0 <= i < |names| && names[i] == n;
        assert deps[i] in deps;
      }
      if dep :| dep in deps && dep.name == n {
        var i :| 0 <= i < |deps| && deps[i] == dep;
        assert names[i] in Elements(names);
      }
    }
  }

  /** The entry named `n` of an aggregation, if there is one. */
  function EntryOf(ds: seq<Detection>, n: string): Option<TableDependency> {
    if n in NamesOf(ds) then Some(EntryFor(ds, n)) else None
  }

  lemma EntryOfIsTheEntry(ds: seq<Detection>, dep: TableDependency)
    ensures dep in Aggregated(ds) <==> EntryOf(ds, dep.name) == Some(dep)
  {
    var names, deps := SortedNames(ds), Aggregated(ds);
    if dep in deps {
      var i :| 0 <= i < |deps| && deps[i] == dep;
      assert names[i] in Elements(names);
    }
    if EntryOf(ds, dep.name) == Some(dep) {
      assert dep.name in Elements(names);
      var i :| 0 <= i < |names| && names[i] == dep.name;
      assert deps[i] == dep;
    }
  }

  /** Two entries for one table in one: modes joined, locations in order without repetition. */
  function Combine(a: Option<TableDependency>, b: Option<TableDependency>): Option<TableDependency> {
    if a.None? then b
    else if b.None? then a
    else Some(TableDependency(a.value.name, Join(a.value.mode, b.value.mode),
                              Dedup(a.value.locations + b.value.locations)))
  }

  lemma {:induction false} SeenAppend(xs: seq<Detection>, ys: seq<Detection>, n: string)
    ensures ModesSeen(xs + ys, n) == ModesSeen(xs, n) + ModesSeen(ys, n)
    ensures LocationsSeen(xs + ys, n) == LocationsSeen(xs, n) + LocationsSeen(ys, n)
    ensures NamesOf(xs + ys) == NamesOf(xs) + NamesOf(ys)
    decreases |ys|
  {
    if ys == [] {
      assert xs + ys == xs;
    } else {
      var k := |ys| - 1;
      assert ys == ys[..k] + [ys[k]];
      assert xs + ys == (xs + ys[..k]) + [ys[k]];
      SeenAppend(xs, ys[..k], n);
      SeenSnoc(xs + ys[..k], ys[k], n);
      SeenSnoc(ys[..k], ys[k], n);
      NamesSnoc(xs + ys[..k], ys[k]);
      NamesSnoc(ys[..k], ys[k]);
    }
  }

  /** Aggregation is a homomorphism: per table, aggregating a concatenation combines the aggregations
      of its parts. */
  lemma AggregateConcat(xs: seq<Detection>, ys: seq<Detection>, n: string)
    ensures EntryOf(xs + ys, n) == Combine(EntryOf(xs, n), EntryOf(ys, n))
  {
    SeenAppend(xs, ys, n);
    if n != "" && n !in NamesOf(xs) { NothingSeen(xs, n); }
    if n != "" && n !in NamesOf(ys) { NothingSeen(ys, n); }
    if n in NamesOf(xs) && n in NamesOf(ys) {
      LocatedIff(xs, n);
      LocatedIff(ys, n);
      ResolveIsJoin(ModesSeen(xs, n), ModesSeen(ys, n));
      DedupParts(LocationsSeen(xs, n), LocationsSeen(ys, n));
    } else if n in NamesOf(xs) {
      assert ModesSeen(xs, n) + {} == ModesSeen(xs, n) && LocationsSeen(xs, n) + [] == LocationsSeen(xs, n);
    } else if n in NamesOf(ys) {
      assert {} + ModesSeen(ys, n) == ModesSeen(ys, n) && [] + LocationsSeen(ys, n) == LocationsSeen(ys, n);
    }
  }

  /** The mode of a table is the least one above every observation of it. */
  lemma ModeIsLeastUpperBound(ds: seq<Detection>, n: string, c: AccessMode)
    requires n in NamesOf(ds)
    ensures forall d :: d in ds && d.name == n ==> ModeLe(d.mode, EntryFor(ds, n).mode)
    ensures (forall d :: d in ds && d.name == n ==> ModeLe(d.mode, c)) ==> ModeLe(EntryFor(ds, n).mode, c)
  {
    var seen := ModesSeen(ds, n);
    LocatedIff(ds, n);
    var x :| x in seen;
    assert x.Read? || x.Write? || x.ReadWrite? || x.Unknown?;
    if forall d :: d in ds && d.name == n ==> ModeLe(d.mode, c) {
      assert forall m :: m in seen ==> ModeLe(m, c);
    }
  }

  /** Only the order of locations depends on the order of detections. */
  lemma AggregationIgnoresOrder(xs: seq<Detection>, ys: seq<Detection>, n: string)
    requires multiset(xs) == multiset(ys)
    ensures NamesOf(xs) == NamesOf(ys) && EntryFor(xs, n).mode == EntryFor(ys, n).mode
    ensures Elements(EntryFor(xs, n).locations) == Elements(EntryFor(ys, n).locations)
  {
    forall d ensures d in xs <==> d in ys {
      assert d in xs <==> d in multiset(xs);
      assert d in ys <==> d in multiset(ys);
    }
    assert ModesSeen(xs, n) == ModesSeen(ys, n);
    DedupElements(LocationsSeen(xs, n));
    DedupElements(LocationsSeen(ys, n));
    forall l ensures l in LocationsSeen(xs, n) <==> l in LocationsSeen(ys, n) {
      LocationSeenIff(xs, n, l);
      LocationSeenIff(ys, n, l);
    }
  }

  lemma {:induction false} LocationSeenIff(ds: seq<Detection>, n: string, l: SourceLocation)
    ensures l in LocationsSeen(ds, n) <==> exists d :: d in ds && d.name == n && d.location == l
  {
    if ds != [] {
      var k := |ds| - 1;
      LocationSeenIff(ds[..k], n, l);
      assert ds == ds[..k] + [ds[k]];
    }
  }

  // ---------------------------------------------------------------- the entry of a table, in plain terms

  ghost predicate Seen(ds: seq<Detection>, n: string, mode: AccessMode) {
    exists d :: d in ds && d.name == n && d.mode == mode
  }

  /** Reads and writes add up; nothing known only where nothing else was seen. */
  ghost predicate ModeSeen(ds: seq<Detection>, n: string, mode: AccessMode) {
    match mode
    case ReadWrite => Seen(ds, n, ReadWrite) || (Seen(ds, n, Read) && Seen(ds, n, Write))
    case Write => Seen(ds, n, Write) && !Seen(ds, n, Read) && !Seen(ds, n, ReadWrite)
    case Read => Seen(ds, n, Read) && !Seen(ds, n, Write) && !Seen(ds, n, ReadWrite)
    case Unknown => Seen(ds, n, Unknown) && !Seen(ds, n, Read) && !Seen(ds, n, Write) && !Seen(ds, n, ReadWrite)
  }

  ghost predicate Named(ds: seq<Detection>, n: string) {
    n != "" && exists d :: d in ds && d.name == n
  }

  ghost predicate Listed(deps: seq<TableDependency>, n: string) {
    exists dep :: dep in deps && dep.name == n
  }

  /** Position `i` is the first to locate table `n` at `l`. */
  ghost predicate FirstLocated(ds: seq<Detection>, n: string, l: SourceLocation, i: nat) {
    && i < |ds| && ds[i].name == n && ds[i].location == l
    && forall k :: 0 <= k < i && ds[k].name == n ==> ds[k].location != l
  }

  /** The locations detected for `n`, each once, in the order of first detection. */
  ghost predicate LocationsListed(ds: seq<Detection>, n: string, ls: seq<SourceLocation>) {
    && Distinct(ls)
    && (forall l :: l in ls <==> exists d :: d in ds && d.name == n && d.location == l)
    && (forall i, j, a: nat, b: nat ::
          0 <= i < j < |ls| && FirstLocated(ds, n, ls[i], a) && FirstLocated(ds, n, ls[j], b) ==> a < b)
  }

  lemma {:induction false} LocationsInOrder(ds: seq<Detection>, n: string)
    ensures LocationsListed(ds, n, Dedup(LocationsSeen(ds, n)))
  {
    var ls := Dedup(LocationsSeen(ds, n));
    DedupDistinct(LocationsSeen(ds, n));
    DedupElements(LocationsSeen(ds, n));
    forall l ensures l in ls <==> exists d :: d in ds && d.name == n && d.location == l { LocationSeenIff(ds, n, l); }
    if ds != [] {
      var k := |ds| - 1;
      assert ds == ds[..k] + [ds[k]];
      LocationsInOrder(ds[..k], n);
      OneMoreLocation(ds[..k], ds[k], n);
    }
  }

  lemma OneMoreLocation(front: seq<Detection>, d: Detection, n: string)
    requires LocationsListed(front, n, Dedup(LocationsSeen(front, n)))
    ensures var ds, ls := front + [d], Dedup(LocationsSeen(front + [d], n));
            forall i, j, a: nat, b: nat ::
              0 <= i < j < |ls| && FirstLocated(ds, n, ls[i], a) && FirstLocated(ds, n, ls[j], b) ==> a < b
  {
    var ds, before := front + [d], Dedup(LocationsSeen(front, n));
    var ls := Dedup(LocationsSeen(ds, n));
    SeenSnoc(front, d, n);
    DedupSnoc(LocationsSeen(front, n), d.location);
    forall i, j, a: nat, b: nat | 0 <= i < j < |ls| && FirstLocated(ds, n, ls[i], a) && FirstLocated(ds, n, ls[j], b)
      ensures a < b
    {
      assert ls[i] == before[i] && before[i] in before;
      LocatedInFront(front, d, n, ls[i], a);
      if j < |before| {
        assert before[j] in before;
        LocatedInFront(front, d, n, ls[j], b);
      } else {
        forall q | 0 <= q < |front| && front[q].name == n ensures front[q].location != ls[j] {
          assert front[q] in front;
        }
      }
    }
  }

  lemma LocatedInFront(front: seq<Detection>, d: Detection, n: string, l: SourceLocation, i: nat)
    requires (exists e :: e in front && e.name == n && e.location == l) && FirstLocated(front + [d], n, l, i)
    ensures FirstLocated(front, n, l, i)
  {
    var ds := front + [d];
    var e :| e in front && e.name == n && e.location == l;
    var k :| 0 <= k < |front| && front[k] == e;
    assert ds[k] == front[k];
    assert i <= k;
    assert forall q :: 0 <= q < |front| ==> ds[q] == front[q];
  }

  lemma ResolvedIsSeen(ds: seq<Detection>, n: string)
    requires Named(ds, n)
    ensures ModeSeen(ds, n, EntryFor(ds, n).mode)
  {
    var modes := ModesSeen(ds, n);
    forall m: AccessMode ensures m in modes <==> Seen(ds, n, m) {}
    var d :| d in ds && d.name == n;
    assert Seen(ds, n, d.mode);
    assert d.mode.Read? || d.mode.Write? || d.mode.ReadWrite? || d.mode.Unknown?;
  }

  /** One entry for exactly each non-empty name detected: its mode says whether reads, writes or both were
      seen, its locations are those detected for it, each once, in the order of first detection. */
  lemma AggregatedMeaning(ds: seq<Detection>)
    ensures var deps := Aggregated(ds);
            && (forall n :: Named(ds, n) <==> Listed(deps, n))
            && (forall dep :: dep in deps ==>
                  ModeSeen(ds, dep.name, dep.mode) && LocationsListed(ds, dep.name, dep.locations))
  {
    var names, deps := SortedNames(ds), Aggregated(ds);
    AggregatedIsValid(ds);
    forall n ensures Named(ds, n) <==> Listed(deps, n) {
      assert Named(ds, n) <==> n in NamesOf(ds);
    }
    forall dep | dep in deps ensures ModeSeen(ds, dep.name, dep.mode) && LocationsListed(ds, dep.name, dep.locations) {
      var i :| 0 <= i < |deps| && deps[i] == dep;
      assert names[i] in Elements(names);
      ResolvedIsSeen(ds, names[i]);
      LocationsInOrder(ds, names[i]);
    }
  }
}
