/** The shared-table graph over the projects in scope: what the builders' loops list, and what the
    list means. */
module DependencyGraph {
  import opened Models
  import opened Ordering

  datatype InScopeProject = InScopeProject(id: int, path: string)

  /** A profile, as far as the graph reads it. */
  datatype Profile = Profile(id: int, tables: seq<TableDependency>)

  datatype Edge = Edge(source: int, target: int, table: string, unknown: bool)

  datatype Graph = Graph(nodes: seq<InScopeProject>, edges: seq<Edge>)

  // ---------------------------------------------------------------- what the loops list

  /** `{dep.table_name: dep.access_mode for dep in deps}`: the last entry of a name wins. */
  function ModesOf(deps: seq<TableDependency>): map<string, AccessMode> {
    if deps == [] then map[]
    else
      var d := deps[|deps| - 1];
      ModesOf(deps[..|deps| - 1])[d.name := d.mode]
  }

  /** `{profile.gitlab_project_id: profile for profile in profiles if ...}`. */
  function IndexProfiles(profiles: seq<Profile>, inScope: set<int>): map<int, Profile> {
    if profiles == [] then map[]
    else
      var p := profiles[|profiles| - 1];
      var before := IndexProfiles(profiles[..|profiles| - 1], inScope);
      if p.id in inScope then before[p.id := p] else before
  }

  function IdsOf(catalog: seq<InScopeProject>): (ids: seq<int>)
    ensures |ids| == |catalog|
    ensures forall i :: 0 <= i < |ids| ==> ids[i] == catalog[i].id
  {
    seq(|catalog|, i requires 0 <= i < |catalog| => catalog[i].id)
  }

  ghost function SharedTables(a: Profile, b: Profile): (names: seq<string>)
    ensures IsSortedSet(names, ModesOf(a.tables).Keys * ModesOf(b.tables).Keys, StringLe)
  {
    StringLeTotal();
    SortedSet(ModesOf(a.tables).Keys * ModesOf(b.tables).Keys, StringLe)
  }

  predicate UnknownIn(a: Profile, b: Profile, table: string)
    requires table in ModesOf(a.tables) && table in ModesOf(b.tables)
  {
    ModesOf(a.tables)[table].Unknown? || ModesOf(b.tables)[table].Unknown?
  }

  /** One edge per table the profiles of `a` and `b` share; none when either profile is missing. */
  ghost function PairEdges(known: map<int, Profile>, a: int, b: int): seq<Edge> {
    if a !in known || b !in known then []
    else
      var names := SharedTables(known[a], known[b]);
      seq(|names|, k requires 0 <= k < |names| =>
        assert names[k] in Elements(names);
        Edge(a, b, names[k], UnknownIn(known[a], known[b], names[k])))
  }

  /** The edges of position `i` to the positions after it and before `j`. */
  ghost function RowEdges(known: map<int, Profile>, ids: seq<int>, i: nat, j: nat): seq<Edge>
    requires i < |ids| && j <= |ids|
    decreases j
  {
    if j <= i + 1 then [] else RowEdges(known, ids, i, j - 1) + PairEdges(known, ids[i], ids[j - 1])
  }

  ghost function EdgesUpTo(known: map<int, Profile>, ids: seq<int>, i: nat): seq<Edge>
    requires i <= |ids|
  {
    if i == 0 then [] else EdgesUpTo(known, ids, i - 1) + RowEdges(known, ids, i - 1, |ids|)
  }

  function Endpoints(edges: seq<Edge>): set<int> {
    (set e | e in edges :: e.source) + (set e | e in edges :: e.target)
  }

  /** The catalog entries that take part in an edge, in catalog order. */
  function NodesAmong(catalog: seq<InScopeProject>, ids: set<int>): seq<InScopeProject> {
    if catalog == [] then []
    else
      var p := catalog[|catalog| - 1];
      NodesAmong(catalog[..|catalog| - 1], ids) + (if p.id in ids then [p] else [])
  }

  /** What both builders describe, for a catalog already in order. */
  ghost function GraphOf(catalog: seq<InScopeProject>, known: map<int, Profile>): Graph {
    var edges := EdgesUpTo(known, IdsOf(catalog), |catalog|);
    Graph(NodesAmong(catalog, Endpoints(edges)), edges)
  }

  predicate ByIdLe(a: InScopeProject, b: InScopeProject) { a.id <= b.id }

  function ScopeIds(catalog: seq<InScopeProject>): set<int> {
    set p | p in catalog :: p.id
  }

  /** The graph of a rendered page: sort the catalog by id, index the profiles, build. */
  ghost function RenderedGraph(catalog: seq<InScopeProject>, profiles: seq<Profile>): Graph {
    GraphOf(Sort(catalog, ByIdLe), IndexProfiles(profiles, ScopeIds(catalog)))
  }

  // ---------------------------------------------------------------- what the list means

  ghost predicate DistinctProjects(catalog: seq<InScopeProject>) {
    forall i, j :: 0 <= i < j < |catalog| ==> catalog[i].id != catalog[j].id
  }

  ghost predicate DistinctProfiles(profiles: seq<Profile>) {
    forall i, j :: 0 <= i < j < |profiles| ==> profiles[i].id != profiles[j].id
  }

  /** Two profiles of projects in scope, the smaller id first, both name `e.table`, and `e.unknown`
      says whether either of the two entries has the unknown mode. */
  ghost predicate Shares(catalog: seq<InScopeProject>, profiles: seq<Profile>, e: Edge) {
    && e.source < e.target && e.source in ScopeIds(catalog) && e.target in ScopeIds(catalog)
    && exists a, b, s, t ::
         a in profiles && b in profiles && Names(a, e.source, s, e.table) && Names(b, e.target, t, e.table)
         && e.unknown == (s.mode.Unknown? || t.mode.Unknown?)
  }

  /** `d` is the entry under which the profile of project `id` names `table`. */
  predicate Names(p: Profile, id: int, d: TableDependency, table: string) {
    p.id == id && d in p.tables && d.name == table
  }

  /** Edges in order of source, then target, then table name. */
  predicate EdgeLe(e: Edge, f: Edge) {
    || e.source < f.source
    || (e.source == f.source && e.target < f.target)
    || (e.source == f.source && e.target == f.target && StringLe(e.table, f.table)
        && (e.table == f.table && e.unknown ==> f.unknown))
  }

  lemma {:induction false} ModesOfMeaning(deps: seq<TableDependency>)
    requires UniqueTableNames(deps)
    ensures forall n :: n in ModesOf(deps) <==> exists d :: d in deps && d.name == n
    ensures forall d :: d in deps ==> ModesOf(deps)[d.name] == d.mode
  {
    if deps != [] {
      var k := |deps| - 1;
      var front := deps[..k];
      assert deps == front + [deps[k]];
      ModesOfMeaning(front);
      forall d | d in front ensures d.name != deps[k].name {
        var i :| 0 <= i < |front| && front[i] == d;
        assert deps[i].name != deps[k].name;
      }
    }
  }

  /** Whatever the list, the last profile of an id in scope is the one indexed, */
  lemma {:induction false} IndexKeepsLast(profiles: seq<Profile>, inScope: set<int>, i: nat)
    requires i < |profiles| && profiles[i].id in inScope
    requires forall k :: i < k < |profiles| ==> profiles[k].id != profiles[i].id
    ensures profiles[i].id in IndexProfiles(profiles, inScope)
    ensures IndexProfiles(profiles, inScope)[profiles[i].id] == profiles[i]
  {
    var n := |profiles| - 1;
    if i < n { IndexKeepsLast(profiles[..n], inScope, i); }
  }

  /** and the last entry for a table name is the one that counts. */
  lemma {:induction false} ModesKeepLast(deps: seq<TableDependency>, i: nat)
    requires i < |deps| && forall k :: i < k < |deps| ==> deps[k].name != deps[i].name
    ensures deps[i].name in ModesOf(deps) && ModesOf(deps)[deps[i].name] == deps[i].mode
  {
    var n := |deps| - 1;
    if i < n { ModesKeepLast(deps[..n], i); }
  }

  lemma {:induction false} IndexProfilesMeaning(profiles: seq<Profile>, inScope: set<int>)
    requires DistinctProfiles(profiles)
    ensures forall p :: p in profiles && p.id in inScope ==>
                          p.id in IndexProfiles(profiles, inScope) && IndexProfiles(profiles, inScope)[p.id] == p
    ensures forall x :: x in IndexProfiles(profiles, inScope) ==>
                          x in inScope && IndexProfiles(profiles, inScope)[x] in profiles
                          && IndexProfiles(profiles, inScope)[x].id == x
  {
    if profiles != [] {
      var k := |profiles| - 1;
      var front := profiles[..k];
      assert profiles == front + [profiles[k]];
      IndexProfilesMeaning(front, inScope);
      forall p | p in front ensures p.id != profiles[k].id {
        var i :| 0 <= i < |front| && front[i] == p;
        assert profiles[i].id != profiles[k].id;
      }
    }
  }

  /** The edges between two given ids, one per shared table, in table order. */
  ghost predicate LinksPair(known: map<int, Profile>, a: int, b: int, e: Edge) {
    && a in known && b in known && e.source == a && e.target == b
    && e.table in ModesOf(known[a].tables) && e.table in ModesOf(known[b].tables)
    && e.unknown == UnknownIn(known[a], known[b], e.table)
  }

  lemma PairEdgesMeaning(known: map<int, Profile>, a: int, b: int)
    ensures forall e :: e in PairEdges(known, a, b) <==> LinksPair(known, a, b, e)
    ensures Ascending(PairEdges(known, a, b), EdgeLe)
  {
    if a in known && b in known {
      var names, edges := SharedTables(known[a], known[b]), PairEdges(known, a, b);
      forall e ensures e in edges <==> LinksPair(known, a, b, e) {
        if e in edges {
          var k :| 0 <= k < |edges| && edges[k] == e;
          assert names[k] in Elements(names);
        }
        if LinksPair(known, a, b, e) {
          assert e.table in Elements(names);
          var k :| 0 <= k < |names| && names[k] == e.table;
          assert edges[k] == e;
        }
      }
    }
  }

  lemma AscendingAppend<T(!new)>(xs: seq<T>, ys: seq<T>, le: (T, T) -> bool)
    requires Ascending(xs, le) && Ascending(ys, le)
    requires forall x, y :: x in xs && y in ys ==> le(x, y) && x != y
    ensures Ascending(xs + ys, le)
  {
    var all := xs + ys;
    forall i, j | 0 <= i < j < |all| ensures le(all[i], all[j]) && all[i] != all[j] {
      if i < |xs| {
        assert all[i] == xs[i];
        if j < |xs| {
          assert all[j] == xs[j];
        } else {
          assert all[j] == ys[j - |xs|];
          assert xs[i] in xs && ys[j - |xs|] in ys;
        }
      } else {
        assert all[i] == ys[i - |xs|] && all[j] == ys[j - |xs|];
      }
    }
  }

  lemma {:induction false} RowEdgesMeaning(known: map<int, Profile>, ids: seq<int>, i: nat, j: nat)
    requires i < |ids| && j <= |ids| && Ascending(ids, IntLe)
    ensures forall e :: e in RowEdges(known, ids, i, j) <==>
            exists k :: i < k < j && LinksPair(known, ids[i], ids[k], e)
    ensures Ascending(RowEdges(known, ids, i, j), EdgeLe)
    decreases j
  {
    if j > i + 1 {
      var before, last := RowEdges(known, ids, i, j - 1), PairEdges(known, ids[i], ids[j - 1]);
      RowEdgesMeaning(known, ids, i, j - 1);
      PairEdgesMeaning(known, ids[i], ids[j - 1]);
      AscendingAppend(before, last, EdgeLe);
    }
  }

  lemma {:induction false} EdgesMeaning(known: map<int, Profile>, ids: seq<int>, n: nat)
    requires n <= |ids| && Ascending(ids, IntLe)
    ensures forall e :: e in EdgesUpTo(known, ids, n) <==>
                          exists i, k :: 0 <= i < n && i < k < |ids| && LinksPair(known, ids[i], ids[k], e)
    ensures Ascending(EdgesUpTo(known, ids, n), EdgeLe)
    decreases n
  {
    if n > 0 {
      var before, last := EdgesUpTo(known, ids, n - 1), RowEdges(known, ids, n - 1, |ids|);
      EdgesMeaning(known, ids, n - 1);
      RowEdgesMeaning(known, ids, n - 1, |ids|);
      AscendingAppend(before, last, EdgeLe);
    }
  }

  lemma IdsOfElements(a: seq<InScopeProject>)
    ensures Elements(IdsOf(a)) == ScopeIds(a)
  {
    forall x | x in ScopeIds(a) ensures x in Elements(IdsOf(a)) {
      var p :| p in a && p.id == x;
      var i :| 0 <= i < |a| && a[i] == p;
      assert IdsOf(a)[i] == x;
    }
    forall x | x in Elements(IdsOf(a)) ensures x in ScopeIds(a) {
      var i :| 0 <= i < |a| && IdsOf(a)[i] == x;
      assert a[i] in a;
    }
  }

  lemma PermutedProjects(a: seq<InScopeProject>, b: seq<InScopeProject>)
    requires multiset(a) == multiset(b) && DistinctProjects(a)
    ensures DistinctProjects(b) && Elements(a) == Elements(b) && ScopeIds(a) == ScopeIds(b)
  {
    assert Distinct(a);
    DistinctByMultiset(a);
    DistinctByMultiset(b);
    SameMultisetSameElements(a, b);
    forall i, j | 0 <= i < j < |b| ensures b[i].id != b[j].id {
      assert b[i] in Elements(a) && b[j] in Elements(a);
    }
    assert forall p :: p in a <==> p in Elements(a);
    assert forall p :: p in b <==> p in Elements(b);
  }

  lemma SortedCatalog(catalog: seq<InScopeProject>)
    requires DistinctProjects(catalog)
    ensures var sorted := Sort(catalog, ByIdLe);
            && Ascending(IdsOf(sorted), IntLe)
            && Elements(sorted) == Elements(catalog)
            && Elements(IdsOf(sorted)) == ScopeIds(catalog)
  {
    var sorted := Sort(catalog, ByIdLe);
    SortFacts(catalog, ByIdLe);
    PermutedProjects(catalog, sorted);
    IdsOfElements(sorted);
  }

  /** For distinct ids and profiles with one entry per table: the edges are exactly the shared tables,
      each once, in order of source, target and table. */
  lemma EdgesAreTheSharedTables(catalog: seq<InScopeProject>, profiles: seq<Profile>)
    requires DistinctProjects(catalog) && DistinctProfiles(profiles)
    requires forall p :: p in profiles ==> UniqueTableNames(p.tables)
    ensures var edges := RenderedGraph(catalog, profiles).edges;
            && (forall e :: e in edges <==> Shares(catalog, profiles, e))
            && Ascending(edges, EdgeLe)
  {
    var known := IndexProfiles(profiles, ScopeIds(catalog));
    var edges := RenderedGraph(catalog, profiles).edges;
    EdgesAreTheLinks(catalog, known);
    forall e ensures e in edges <==> Shares(catalog, profiles, e) {
      if e in edges { LinkedShare(catalog, profiles, known, e); }
      if Shares(catalog, profiles, e) { ShareLinked(catalog, profiles, known, e); }
    }
  }

  /** Over a sorted catalog with distinct ids the loops visit each ordered pair of ids once. */
  lemma EdgesAreTheLinks(catalog: seq<InScopeProject>, known: map<int, Profile>)
    requires DistinctProjects(catalog)
    ensures var edges := GraphOf(Sort(catalog, ByIdLe), known).edges;
            && Ascending(edges, EdgeLe)
            && (forall e :: e in edges <==>
                  && e.source < e.target && e.source in ScopeIds(catalog) && e.target in ScopeIds(catalog)
                  && LinksPair(known, e.source, e.target, e))
  {
    var ids := IdsOf(Sort(catalog, ByIdLe));
    SortedCatalog(catalog);
    EdgesMeaning(known, ids, |ids|);
    forall e
      ensures e in EdgesUpTo(known, ids, |ids|) <==>
              && e.source < e.target && e.source in Elements(ids) && e.target in Elements(ids)
              && LinksPair(known, e.source, e.target, e)
    {
      if e.source < e.target && e.source in Elements(ids) && e.target in Elements(ids)
        && LinksPair(known, e.source, e.target, e) {
        var i :| 0 <= i < |ids| && ids[i] == e.source;
        var k :| 0 <= k < |ids| && ids[k] == e.target;
        assert i < k;
      }
    }
  }

  lemma LinkedShare(catalog: seq<InScopeProject>, profiles: seq<Profile>, known: map<int, Profile>, e: Edge)
    requires DistinctProfiles(profiles) && known == IndexProfiles(profiles, ScopeIds(catalog))
    requires forall p :: p in profiles ==> UniqueTableNames(p.tables)
    requires e.source < e.target && LinksPair(known, e.source, e.target, e)
    ensures Shares(catalog, profiles, e)
  {
    IndexProfilesMeaning(profiles, ScopeIds(catalog));
    var a, b := known[e.source], known[e.target];
    ModesOfMeaning(a.tables);
    ModesOfMeaning(b.tables);
    var s :| s in a.tables && s.name == e.table;
    var t :| t in b.tables && t.name == e.table;
    assert Names(a, e.source, s, e.table) && Names(b, e.target, t, e.table);
  }

  lemma ShareLinked(catalog: seq<InScopeProject>, profiles: seq<Profile>, known: map<int, Profile>, e: Edge)
    requires DistinctProfiles(profiles) && known == IndexProfiles(profiles, ScopeIds(catalog))
    requires forall p :: p in profiles ==> UniqueTableNames(p.tables)
    requires Shares(catalog, profiles, e)
    ensures LinksPair(known, e.source, e.target, e)
  {
    var a, b, s, t :| a in profiles && b in profiles && Names(a, e.source, s, e.table) && Names(b, e.target, t, e.table)
      && e.unknown == (s.mode.Unknown? || t.mode.Unknown?);
    NamedEntry(catalog, profiles, known, a, e.source, s, e.table);
    NamedEntry(catalog, profiles, known, b, e.target, t, e.table);
  }

  lemma NamedEntry(catalog: seq<InScopeProject>, profiles: seq<Profile>, known: map<int, Profile>, p: Profile,
        id: int, d: TableDependency, table: string)
    requires DistinctProfiles(profiles) && known == IndexProfiles(profiles, ScopeIds(catalog))
    requires p in profiles && UniqueTableNames(p.tables) && Names(p, id, d, table) && id in ScopeIds(catalog)
    ensures id in known && known[id] == p && table in ModesOf(p.tables) && ModesOf(p.tables)[table] == d.mode
  {
    EntryFound(catalog, profiles, known, p, d);
  }

  lemma EntryFound(catalog: seq<InScopeProject>, profiles: seq<Profile>, known: map<int, Profile>, p: Profile,
        d: TableDependency)
    requires DistinctProfiles(profiles) && known == IndexProfiles(profiles, ScopeIds(catalog))
    requires p in profiles && p.id in ScopeIds(catalog) && UniqueTableNames(p.tables) && d in p.tables
    ensures p.id in known && known[p.id] == p
    ensures d.name in ModesOf(p.tables) && ModesOf(p.tables)[d.name] == d.mode
  {
    IndexProfilesMeaning(profiles, ScopeIds(catalog));
    ModesOfMeaning(p.tables);
  }

  lemma {:induction false} NodesAmongMeaning(catalog: seq<InScopeProject>, ids: set<int>)
    ensures forall p :: p in NodesAmong(catalog, ids) <==> p in catalog && p.id in ids
  {
    if catalog != [] {
      var k := |catalog| - 1;
      assert catalog == catalog[..k] + [catalog[k]];
      NodesAmongMeaning(catalog[..k], ids);
    }
  }

  lemma LastIsGreatest(catalog: seq<InScopeProject>)
    requires Ascending(IdsOf(catalog), IntLe) && catalog != []
    ensures Ascending(IdsOf(catalog[..|catalog| - 1]), IntLe)
    ensures forall p :: p in catalog[..|catalog| - 1] ==> p.id < catalog[|catalog| - 1].id
  {
    var k := |catalog| - 1;
    assert IdsOf(catalog[..k]) == IdsOf(catalog)[..k];
    forall p | p in catalog[..k] ensures p.id < catalog[k].id {
      var x :| 0 <= x < k && catalog[..k][x] == p;
      assert IdsOf(catalog)[x] < IdsOf(catalog)[k];
    }
  }

  lemma {:induction false} NodesAmongAscend(catalog: seq<InScopeProject>, ids: set<int>)
    requires Ascending(IdsOf(catalog), IntLe)
    ensures Ascending(IdsOf(NodesAmong(catalog, ids)), IntLe)
  {
    if catalog != [] {
      var front, last := catalog[..|catalog| - 1], catalog[|catalog| - 1];
      var before := NodesAmong(front, ids);
      LastIsGreatest(catalog);
      NodesAmongAscend(front, ids);
      NodesAmongMeaning(front, ids);
      AscendingSnoc(before, last);
      assert NodesAmong(catalog, ids) == if last.id in ids then before + [last] else before;
    }
  }

  lemma AscendingSnoc(nodes: seq<InScopeProject>, p: InScopeProject)
    requires Ascending(IdsOf(nodes), IntLe) && forall i :: 0 <= i < |nodes| ==> nodes[i].id < p.id
    ensures Ascending(IdsOf(nodes + [p]), IntLe)
  {
    forall i, j | 0 <= i < j < |nodes| + 1 ensures IdsOf(nodes + [p])[i] < IdsOf(nodes + [p])[j] {
      if j < |nodes| { assert IdsOf(nodes)[i] < IdsOf(nodes)[j]; }
    }
  }

  /** The nodes are exactly the catalog entries at the end of some edge, ascending by id; no edge
      lacks a node, and no isolated project has one. */
  lemma NodesAreTheEndpoints(catalog: seq<InScopeProject>, profiles: seq<Profile>)
    requires DistinctProjects(catalog)
    ensures var g := RenderedGraph(catalog, profiles);
            && (forall p :: p in g.nodes <==>
                  p in catalog && exists e :: e in g.edges && (e.source == p.id || e.target == p.id))
            && Ascending(IdsOf(g.nodes), IntLe)
            && (forall e :: e in g.edges ==> e.source in IdsOf(g.nodes) && e.target in IdsOf(g.nodes))
  {
    var g := RenderedGraph(catalog, profiles);
    var sorted := Sort(catalog, ByIdLe);
    SortedCatalog(catalog);
    EdgesAreTheLinks(catalog, IndexProfiles(profiles, ScopeIds(catalog)));
    NodesAmongMeaning(sorted, Endpoints(g.edges));
    NodesAmongAscend(sorted, Endpoints(g.edges));
    forall p
      ensures p in g.nodes <==> p in catalog && exists e :: e in g.edges && (e.source == p.id || e.target == p.id)
    {
      assert p in catalog <==> p in Elements(sorted);
      EndpointMeaning(g.edges, p.id);
    }
    forall x | x in Endpoints(g.edges) && x in ScopeIds(catalog) ensures x in IdsOf(g.nodes) {
      EndpointHasNode(catalog, g.nodes, Endpoints(g.edges), x);
    }
    forall e | e in g.edges ensures e.source in IdsOf(g.nodes) && e.target in IdsOf(g.nodes) {
      EndpointMeaning(g.edges, e.source);
      EndpointMeaning(g.edges, e.target);
    }
  }

  lemma EndpointMeaning(edges: seq<Edge>, x: int)
    ensures x in Endpoints(edges) <==> exists e :: e in edges && (e.source == x || e.target == x)
  {}

  lemma EndpointHasNode(catalog: seq<InScopeProject>, nodes: seq<InScopeProject>, ends: set<int>, x: int)
    requires nodes == NodesAmong(Sort(catalog, ByIdLe), ends) && x in ends && x in ScopeIds(catalog)
    ensures x in IdsOf(nodes)
  {
    var p :| p in catalog && p.id == x;
    SortFacts(catalog, ByIdLe);
    SameMultisetSameElements(catalog, Sort(catalog, ByIdLe));
    assert p in Elements(Sort(catalog, ByIdLe));
    NodesAmongMeaning(Sort(catalog, ByIdLe), ends);
    var k :| 0 <= k < |nodes| && nodes[k] == p;
    assert IdsOf(nodes)[k] == x;
  }

  lemma SortedByIdIsUnique(a: seq<InScopeProject>, b: seq<InScopeProject>)
    requires SortedBy(a, ByIdLe) && SortedBy(b, ByIdLe) && multiset(a) == multiset(b) && Ascending(IdsOf(a), IntLe)
    ensures a == b
  {
    forall x, y | x in a && y in a && ByIdLe(x, y) && ByIdLe(y, x) ensures x == y {
      var i :| 0 <= i < |a| && a[i] == x;
      var j :| 0 <= j < |a| && a[j] == y;
      assert IdsOf(a)[i] == IdsOf(a)[j];
    }
    SortedPermutationUnique(a, b, ByIdLe);
  }

  lemma SameSorted(catalog: seq<InScopeProject>, catalog': seq<InScopeProject>)
    requires multiset(catalog) == multiset(catalog') && DistinctProjects(catalog)
    ensures Sort(catalog, ByIdLe) == Sort(catalog', ByIdLe)
  {
    SortFacts(catalog, ByIdLe);
    SortFacts(catalog', ByIdLe);
    SortedCatalog(catalog);
    SortedByIdIsUnique(Sort(catalog, ByIdLe), Sort(catalog', ByIdLe));
  }

  /** For distinct ids the graph does not depend on the order of the catalog or of the profiles. */
  lemma GraphIgnoresOrder(catalog: seq<InScopeProject>, profiles: seq<Profile>, catalog': seq<InScopeProject>,
        profiles': seq<Profile>)
    requires multiset(catalog) == multiset(catalog') && multiset(profiles) == multiset(profiles')
    requires DistinctProjects(catalog) && DistinctProfiles(profiles)
    ensures RenderedGraph(catalog, profiles) == RenderedGraph(catalog', profiles')
  {
    SameSorted(catalog, catalog');
    PermutedProjects(catalog, catalog');
    SameIndex(profiles, profiles', ScopeIds(catalog));
  }

  lemma SameIndex(profiles: seq<Profile>, profiles': seq<Profile>, inScope: set<int>)
    requires multiset(profiles) == multiset(profiles') && DistinctProfiles(profiles)
    ensures IndexProfiles(profiles, inScope) == IndexProfiles(profiles', inScope)
  {
    PermutedDistinct(profiles, profiles');
    IndexIncluded(profiles, profiles', inScope);
    IndexIncluded(profiles', profiles, inScope);
    var index, index' := IndexProfiles(profiles, inScope), IndexProfiles(profiles', inScope);
    assert forall x :: x in index <==> x in index';
    assert forall x :: x in index ==> index[x] == index'[x];
  }

  lemma IndexIncluded(profiles: seq<Profile>, profiles': seq<Profile>, inScope: set<int>)
    requires multiset(profiles) == multiset(profiles') && DistinctProfiles(profiles) && DistinctProfiles(profiles')
    ensures forall x :: x in IndexProfiles(profiles, inScope) ==>
                          x in IndexProfiles(profiles', inScope)
                          && IndexProfiles(profiles', inScope)[x] == IndexProfiles(profiles, inScope)[x]
  {
    IndexProfilesMeaning(profiles, inScope);
    IndexProfilesMeaning(profiles', inScope);
    forall x | x in IndexProfiles(profiles, inScope)
      ensures x in IndexProfiles(profiles', inScope)
              && IndexProfiles(profiles', inScope)[x] == IndexProfiles(profiles, inScope)[x]
    {
      var p := IndexProfiles(profiles, inScope)[x];
      assert p in multiset(profiles');
    }
  }

  lemma PermutedDistinct(profiles: seq<Profile>, profiles': seq<Profile>)
    requires multiset(profiles) == multiset(profiles') && DistinctProfiles(profiles)
    ensures DistinctProfiles(profiles')
  {
    assert Distinct(profiles);
    DistinctByMultiset(profiles);
    DistinctByMultiset(profiles');
    SameMultisetSameElements(profiles, profiles');
    forall i, j | 0 <= i < j < |profiles'| ensures profiles'[i].id != profiles'[j].id {
      assert profiles'[i] in Elements(profiles) && profiles'[j] in Elements(profiles);
    }
  }
}
