/** The two builders of the dependency graph page and the page's preparation step. */
module GraphBuilders {
  import opened Base
  import opened Models
  import opened Ordering
  import opened DependencyGraph
  import opened Mermaid
  import Text
  import opened ScriptJson

  // ---------------------------------------------------------------- the payload

  function NodeJson(p: InScopeProject): Json {
    Obj([Field("data", Obj([Field("id", Str("P" + Decimal(p.id))), Field("label", Str(NodeLabel(p)))]))])
  }

  function EdgeJson(e: Edge): Json {
    Obj([Field("data", Obj([
      Field("source", Str("P" + Decimal(e.source))),
      Field("target", Str("P" + Decimal(e.target))),
      Field("label", Str(EdgeLabel(e.table, e.unknown))),
      Field("kind", Str("shared_table"))]))])
  }

  function NodesJson(nodes: seq<InScopeProject>): (items: seq<Json>)
    ensures |items| == |nodes|
    ensures forall i :: 0 <= i < |nodes| ==> items[i] == NodeJson(nodes[i])
  {
    seq(|nodes|, i requires 0 <= i < |nodes| => NodeJson(nodes[i]))
  }

  function EdgesJson(edges: seq<Edge>): (items: seq<Json>)
    ensures |items| == |edges|
    ensures forall i :: 0 <= i < |edges| ==> items[i] == EdgeJson(edges[i])
  {
    seq(|edges|, i requires 0 <= i < |edges| => EdgeJson(edges[i]))
  }

  function Payload(g: Graph): Json {
    Obj([Field("nodes", Arr(NodesJson(g.nodes))), Field("edges", Arr(EdgesJson(g.edges)))])
  }

  // ---------------------------------------------------------------- growing the listings

  lemma EmptyListing()
    ensures EdgesJson([]) == [] && EdgeLines([]) == [] && Endpoints([]) == {}
  {}

  ghost predicate IsImage<A, B>(f: A -> B, xs: seq<A>, r: seq<B>) {
    |r| == |xs| && forall i :: 0 <= i < |xs| ==> r[i] == f(xs[i])
  }

  lemma ImageAppend<A, B>(f: A -> B, xs: seq<A>, ys: seq<A>, r: seq<B>, s: seq<B>, t: seq<B>)
    requires IsImage(f, xs, r) && IsImage(f, ys, s) && IsImage(f, xs + ys, t)
    ensures t == r + s
  {}

  lemma EdgesJsonSnoc(all: seq<Edge>, k: nat)
    requires k < |all|
    ensures EdgesJson(all[..k + 1]) == EdgesJson(all[..k]) + [EdgeJson(all[k])]
  {
    assert all[..k + 1] == all[..k] + [all[k]];
    ImageAppend(EdgeJson, all[..k], [all[k]], EdgesJson(all[..k]), [EdgeJson(all[k])], EdgesJson(all[..k + 1]));
  }

  lemma EdgesJsonAppend(xs: seq<Edge>, ys: seq<Edge>)
    ensures EdgesJson(xs + ys) == EdgesJson(xs) + EdgesJson(ys)
  {
    ImageAppend(EdgeJson, xs, ys, EdgesJson(xs), EdgesJson(ys), EdgesJson(xs + ys));
  }

  lemma EdgeLinesSnoc(all: seq<Edge>, k: nat)
    requires k < |all|
    ensures EdgeLines(all[..k + 1]) == EdgeLines(all[..k]) + [EdgeLine(all[k])]
  {
    assert all[..k + 1] == all[..k] + [all[k]];
    ImageAppend(EdgeLine, all[..k], [all[k]], EdgeLines(all[..k]), [EdgeLine(all[k])], EdgeLines(all[..k + 1]));
  }

  lemma EdgeLinesAppend(xs: seq<Edge>, ys: seq<Edge>)
    ensures EdgeLines(xs + ys) == EdgeLines(xs) + EdgeLines(ys)
  {
    ImageAppend(EdgeLine, xs, ys, EdgeLines(xs), EdgeLines(ys), EdgeLines(xs + ys));
  }

  lemma EndpointsAppend(xs: seq<Edge>, ys: seq<Edge>)
    ensures Endpoints(xs + ys) == Endpoints(xs) + Endpoints(ys)
  {
    assert forall e :: e in xs + ys <==> e in xs || e in ys;
  }

  /** A pair's edges touch both of its ids, unless there is none. */
  lemma PairEndpoints(known: map<int, Profile>, a: int, b: int)
    ensures Endpoints(PairEdges(known, a, b)) == if PairEdges(known, a, b) == [] then {} else {a, b}
  {
    PairEdgesMeaning(known, a, b);
    var edges := PairEdges(known, a, b);
    if edges != [] {
      assert edges[0] in edges;
    }
  }

  /** Position `k` of a pair's edges is the edge of its `k`th shared table. */
  lemma PairEdgeAt(known: map<int, Profile>, a: int, b: int, k: nat)
    requires a in known && b in known && k < |SharedTables(known[a], known[b])|
    ensures var table := SharedTables(known[a], known[b])[k];
            && |PairEdges(known, a, b)| == |SharedTables(known[a], known[b])|
            && table in ModesOf(known[a].tables) && table in ModesOf(known[b].tables)
            && PairEdges(known, a, b)[k] == Edge(a, b, table, UnknownIn(known[a], known[b], table))
  {
    assert SharedTables(known[a], known[b])[k] in Elements(SharedTables(known[a], known[b]));
  }

  /** The row of a project without a profile is empty. */
  lemma {:induction false} NoRow(known: map<int, Profile>, ids: seq<int>, i: nat, j: nat)
    requires i < |ids| && j <= |ids| && ids[i] !in known
    ensures RowEdges(known, ids, i, j) == []
    decreases j
  {
    if j > i + 1 { NoRow(known, ids, i, j - 1); }
  }

  /** What the pair of positions `i` and `j` adds to the row of `i`. */
  lemma RowStep(known: map<int, Profile>, ids: seq<int>, i: nat, j: nat, row: seq<Edge>, pair: seq<Edge>,
        next: seq<Edge>)
    requires i < j < |ids|
    requires row == RowEdges(known, ids, i, j) && pair == PairEdges(known, ids[i], ids[j])
             && next == RowEdges(known, ids, i, j + 1)
    ensures EdgesJson(next) == EdgesJson(row) + EdgesJson(pair) && EdgeLines(next) == EdgeLines(row) + EdgeLines(pair)
    ensures Endpoints(next) == Endpoints(row) + if pair == [] then {} else {ids[i], ids[j]}
    ensures ids[j] !in known ==> next == row
    ensures EdgesJson(pair) == [] <==> pair == []
    ensures EdgeLines(pair) == [] <==> pair == []
  {
    EdgesJsonAppend(row, pair);
    EdgeLinesAppend(row, pair);
    EndpointsAppend(row, pair);
    PairEndpoints(known, ids[i], ids[j]);
    assert row + [] == row;
  }

  /** What the row of position `i` adds to the rows before it. */
  lemma UpToStep(known: map<int, Profile>, ids: seq<int>, i: nat, before: seq<Edge>, row: seq<Edge>, next: seq<Edge>)
    requires i < |ids|
    requires before == EdgesUpTo(known, ids, i) && row == RowEdges(known, ids, i, |ids|)
             && next == EdgesUpTo(known, ids, i + 1)
    ensures EdgesJson(next) == EdgesJson(before) + EdgesJson(row)
            && EdgeLines(next) == EdgeLines(before) + EdgeLines(row)
    ensures Endpoints(next) == Endpoints(before) + Endpoints(row)
    ensures |next| == |before| + |row|
    ensures ids[i] !in known ==> next == before
  {
    EdgesJsonAppend(before, row);
    EdgeLinesAppend(before, row);
    EndpointsAppend(before, row);
    if ids[i] !in known {
      NoRow(known, ids, i, |ids|);
      assert before + [] == before;
    }
  }

  // ---------------------------------------------------------------- the payload builder

  /** One edge per table the pair shares, in order of name. */
  method PairData(known: map<int, Profile>, a: int, b: int) returns (edges: seq<Json>)
    requires a in known && b in known
    ensures edges == EdgesJson(PairEdges(known, a, b))
  {
    var modesA, modesB := ModesOf(known[a].tables), ModesOf(known[b].tables);
    StringLeTotal();
    var shared := SortedList(modesA.Keys * modesB.Keys, StringLe);
    assert shared == SharedTables(known[a], known[b]);
    ghost var all := PairEdges(known, a, b);
    edges := [];
    for k := 0 to |shared|
      invariant edges == EdgesJson(all[..k])
    {
      PairEdgeAt(known, a, b, k);
      var e := Edge(a, b, shared[k], modesA[shared[k]] == Unknown || modesB[shared[k]] == Unknown);
      EdgesJsonSnoc(all, k);
      edges := edges + [EdgeJson(e)];
    }
    assert all[..|shared|] == all;
  }

  /** The pass of the inner loop over position `j`. */
  method AddPairData(known: map<int, Profile>, ids: seq<int>, i: nat, j: nat, before: seq<Json>, touched: set<int>)
    returns (edges: seq<Json>, participating: set<int>)
    requires i < j < |ids| && ids[i] in known
    requires before == EdgesJson(RowEdges(known, ids, i, j)) && touched == Endpoints(RowEdges(known, ids, i, j))
    ensures edges == EdgesJson(RowEdges(known, ids, i, j + 1))
            && participating == Endpoints(RowEdges(known, ids, i, j + 1))
  {
    RowStep(known, ids, i, j, RowEdges(known, ids, i, j), PairEdges(known, ids[i], ids[j]),
            RowEdges(known, ids, i, j + 1));
    edges, participating := before, touched;
    if ids[j] !in known { return; }
    var pair := PairData(known, ids[i], ids[j]);
    edges := edges + pair;
    if pair != [] { participating := participating + {ids[i], ids[j]}; }
  }

  /** The edges of position `i` to every later position, and the ids they touch. */
  method RowData(known: map<int, Profile>, ids: seq<int>, i: nat) returns (edges: seq<Json>, participating: set<int>)
    requires i < |ids| && ids[i] in known
    ensures edges == EdgesJson(RowEdges(known, ids, i, |ids|))
            && participating == Endpoints(RowEdges(known, ids, i, |ids|))
  {
    edges, participating := [], {};
    EmptyListing();
    assert RowEdges(known, ids, i, i + 1) == [];
    for j := i + 1 to |ids|
      invariant edges == EdgesJson(RowEdges(known, ids, i, j)) && participating == Endpoints(RowEdges(known, ids, i, j))
    {
      edges, participating := AddPairData(known, ids, i, j, edges, participating);
    }
  }

  method ParticipatingNodes(catalog: seq<InScopeProject>, participating: set<int>) returns (nodes: seq<Json>)
    ensures nodes == NodesJson(NodesAmong(catalog, participating))
  {
    nodes := [];
    for i := 0 to |catalog|
      invariant nodes == NodesJson(NodesAmong(catalog[..i], participating))
    {
      assert catalog[..i + 1][..i] == catalog[..i];
      if catalog[i].id in participating {
        nodes := nodes + [NodeJson(catalog[i])];
      }
    }
    assert catalog[..|catalog|] == catalog;
  }

  /** The pass of the outer loop over position `i`. */
  method AddRowData(known: map<int, Profile>, ids: seq<int>, i: nat, before: seq<Json>, touched: set<int>)
    returns (edges: seq<Json>, participating: set<int>)
    requires i < |ids|
    requires before == EdgesJson(EdgesUpTo(known, ids, i)) && touched == Endpoints(EdgesUpTo(known, ids, i))
    ensures edges == EdgesJson(EdgesUpTo(known, ids, i + 1)) && participating == Endpoints(EdgesUpTo(known, ids, i + 1))
  {
    UpToStep(known, ids, i, EdgesUpTo(known, ids, i), RowEdges(known, ids, i, |ids|), EdgesUpTo(known, ids, i + 1));
    if ids[i] !in known { return before, touched; }
    var row, ends := RowData(known, ids, i);
    return before + row, touched + ends;
  }

  /** The edge loop over the whole catalog. */
  method ListEdgeData(known: map<int, Profile>, ids: seq<int>) returns (edges: seq<Json>, participating: set<int>)
    ensures edges == EdgesJson(EdgesUpTo(known, ids, |ids|)) && participating == Endpoints(EdgesUpTo(known, ids, |ids|))
  {
    edges, participating := [], {};
    EmptyListing();
    assert EdgesUpTo(known, ids, 0) == [];
    for i := 0 to |ids|
      invariant edges == EdgesJson(EdgesUpTo(known, ids, i)) && participating == Endpoints(EdgesUpTo(known, ids, i))
    {
      edges, participating := AddRowData(known, ids, i, edges, participating);
    }
  }

  /** The payload of the interactive graph. */
  method BuildGraphData(catalog: seq<InScopeProject>, known: map<int, Profile>) returns (payload: Json)
    ensures payload == Payload(GraphOf(catalog, known))
  {
    var edges, participating := ListEdgeData(known, IdsOf(catalog));
    var nodes := ParticipatingNodes(catalog, participating);
    payload := Obj([Field("nodes", Arr(nodes)), Field("edges", Arr(edges))]);
  }

  // ---------------------------------------------------------------- the Mermaid builder

  /** One edge per table the pair shares, in order of name. */
  method PairLines(known: map<int, Profile>, a: int, b: int) returns (lines: seq<string>)
    requires a in known && b in known
    ensures lines == EdgeLines(PairEdges(known, a, b))
  {
    var modesA, modesB := ModesOf(known[a].tables), ModesOf(known[b].tables);
    StringLeTotal();
    var shared := SortedList(modesA.Keys * modesB.Keys, StringLe);
    assert shared == SharedTables(known[a], known[b]);
    ghost var all := PairEdges(known, a, b);
    lines := [];
    for k := 0 to |shared|
      invariant lines == EdgeLines(all[..k])
    {
      PairEdgeAt(known, a, b, k);
      var e := Edge(a, b, shared[k], modesA[shared[k]] == Unknown || modesB[shared[k]] == Unknown);
      EdgeLinesSnoc(all, k);
      lines := lines + [EdgeLine(e)];
    }
    assert all[..|shared|] == all;
  }

  /** The pass of the inner loop over position `j`. */
  method AddPairLines(known: map<int, Profile>, ids: seq<int>, i: nat, j: nat, before: seq<string>, touched: set<int>)
    returns (lines: seq<string>, participating: set<int>)
    requires i < j < |ids| && ids[i] in known
    requires before == EdgeLines(RowEdges(known, ids, i, j)) && touched == Endpoints(RowEdges(known, ids, i, j))
    ensures lines == EdgeLines(RowEdges(known, ids, i, j + 1))
            && participating == Endpoints(RowEdges(known, ids, i, j + 1))
  {
    RowStep(known, ids, i, j, RowEdges(known, ids, i, j), PairEdges(known, ids[i], ids[j]),
            RowEdges(known, ids, i, j + 1));
    lines, participating := before, touched;
    if ids[j] !in known { return; }
    var pair := PairLines(known, ids[i], ids[j]);
    lines := lines + pair;
    if pair != [] { participating := participating + {ids[i], ids[j]}; }
  }

  /** The edges of position `i` to every later position, and the ids they touch. */
  method RowLines(known: map<int, Profile>, ids: seq<int>, i: nat) returns (lines: seq<string>, participating: set<int>)
    requires i < |ids| && ids[i] in known
    ensures lines == EdgeLines(RowEdges(known, ids, i, |ids|))
            && participating == Endpoints(RowEdges(known, ids, i, |ids|))
  {
    lines, participating := [], {};
    EmptyListing();
    assert RowEdges(known, ids, i, i + 1) == [];
    for j := i + 1 to |ids|
      invariant lines == EdgeLines(RowEdges(known, ids, i, j)) && participating == Endpoints(RowEdges(known, ids, i, j))
    {
      lines, participating := AddPairLines(known, ids, i, j, lines, participating);
    }
  }

  method ParticipatingLines(catalog: seq<InScopeProject>, participating: set<int>) returns (lines: seq<string>)
    ensures lines == NodeLines(NodesAmong(catalog, participating))
  {
    lines := [];
    for i := 0 to |catalog|
      invariant lines == NodeLines(NodesAmong(catalog[..i], participating))
    {
      assert catalog[..i + 1][..i] == catalog[..i];
      if catalog[i].id in participating {
        lines := lines + [NodeLine(catalog[i])];
      }
    }
    assert catalog[..|catalog|] == catalog;
  }

  /** The pass of the outer loop over position `i`. */
  method AddRowLines(known: map<int, Profile>, ids: seq<int>, i: nat, before: seq<string>, touched: set<int>)
    returns (lines: seq<string>, participating: set<int>)
    requires i < |ids|
    requires before == EdgeLines(EdgesUpTo(known, ids, i)) && touched == Endpoints(EdgesUpTo(known, ids, i))
    ensures lines == EdgeLines(EdgesUpTo(known, ids, i + 1)) && participating == Endpoints(EdgesUpTo(known, ids, i + 1))
  {
    UpToStep(known, ids, i, EdgesUpTo(known, ids, i), RowEdges(known, ids, i, |ids|), EdgesUpTo(known, ids, i + 1));
    if ids[i] !in known { return before, touched; }
    var row, ends := RowLines(known, ids, i);
    return before + row, touched + ends;
  }

  /** The edge loop over the whole catalog. */
  method ListEdgeLines(known: map<int, Profile>, ids: seq<int>) returns (lines: seq<string>, participating: set<int>)
    ensures lines == EdgeLines(EdgesUpTo(known, ids, |ids|)) && participating == Endpoints(EdgesUpTo(known, ids, |ids|))
  {
    lines, participating := [], {};
    EmptyListing();
    assert EdgesUpTo(known, ids, 0) == [];
    for i := 0 to |ids|
      invariant lines == EdgeLines(EdgesUpTo(known, ids, i)) && participating == Endpoints(EdgesUpTo(known, ids, i))
    {
      lines, participating := AddRowLines(known, ids, i, lines, participating);
    }
  }

  /** The Mermaid source and the number of its edge lines. */
  method BuildMermaidSource(catalog: seq<InScopeProject>, known: map<int, Profile>) returns (source: string,
        edgeCount: nat)
    ensures source == MermaidText(GraphOf(catalog, known)) && edgeCount == |GraphOf(catalog, known).edges|
  {
    var edgeLines, participating := ListEdgeLines(known, IdsOf(catalog));
    var nodeLines := ParticipatingLines(catalog, participating);
    source := Text.JoinLines([HEADER] + nodeLines + edgeLines);
    edgeCount := |edgeLines|;
  }

  // ---------------------------------------------------------------- the page

  /** What the page embeds: the Mermaid source, its edge count and the script text; all blank for an
      empty catalog. */
  method RenderDependencyGraph(catalog: seq<InScopeProject>, profiles: seq<Profile>)
    returns (source: string, edgeCount: nat, script: string)
    ensures var g := RenderedGraph(catalog, profiles);
            if catalog == [] then source == "" && edgeCount == 0 && script == ""
            else source == MermaidText(g) && edgeCount == |g.edges| && script == ScriptSafe(Dumps(Payload(g)))
  {
    var sorted := Sort(catalog, ByIdLe);
    SortFacts(catalog, ByIdLe);
    SameMultisetSameElements(sorted, catalog);
    assert ScopeIds(sorted) == ScopeIds(catalog) by {
      forall p ensures p in sorted <==> p in catalog {
        assert p in Elements(sorted) <==> p in Elements(catalog);
      }
    }
    assert |sorted| == |multiset(sorted)| == |multiset(catalog)| == |catalog|;
    var known := IndexProfiles(profiles, ScopeIds(sorted));
    if sorted == [] { return "", 0, ""; }
    source, edgeCount := BuildMermaidSource(sorted, known);
    var payload := BuildGraphData(sorted, known);
    script := ScriptSafe(Dumps(payload));
  }
}
