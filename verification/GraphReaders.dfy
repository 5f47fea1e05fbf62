/** What a reader can get back out of the two embedded texts, and when that is the whole graph. */
module GraphReaders {
  import opened Base
  import opened Text
  import opened DependencyGraph
  import opened Mermaid
  import opened ScriptJson
  import opened GraphBuilders

  // ---------------------------------------------------------------- items of the script text

  /** The items of a graph with their labels as written. */
  function RawNodes(nodes: seq<InScopeProject>): (items: seq<Item>)
    ensures |items| == |nodes|
    ensures forall i :: 0 <= i < |nodes| ==> items[i] == NodeItem(nodes[i].id, NodeLabel(nodes[i]))
  {
    seq(|nodes|, i requires 0 <= i < |nodes| => NodeItem(nodes[i].id, NodeLabel(nodes[i])))
  }

  function RawEdge(e: Edge): Item {
    EdgeItem(e.source, e.target, EdgeLabel(e.table, e.unknown))
  }

  function RawEdges(edges: seq<Edge>): (items: seq<Item>)
    ensures |items| == |edges|
    ensures forall i :: 0 <= i < |edges| ==> items[i] == RawEdge(edges[i])
  {
    seq(|edges|, i requires 0 <= i < |edges| => RawEdge(edges[i]))
  }

  function RawItems(g: Graph): seq<Item> {
    RawNodes(g.nodes) + RawEdges(g.edges)
  }

  /** The fields of `{"data": {...}}`. */
  function DataFields(v: Json): Option<seq<Field>> {
    if v.Obj? && |v.fields| == 1 && v.fields[0].key == "data" && v.fields[0].value.Obj?
    then Some(v.fields[0].value.fields)
    else None
  }

  /** The string behind a key. */
  function StrAt(fields: seq<Field>, key: string): Option<string> {
    if fields == [] then None
    else if fields[0].key == key && fields[0].value.Str? then Some(fields[0].value.text)
    else StrAt(fields[1..], key)
  }

  /** `P` and a number. */
  function ReadElementId(s: string): Option<int> {
    if StartsWith(s, "P") then Some(ParseInt(s[1..])) else None
  }

  function ReadNodeJson(v: Json): Option<Item> {
    var fields := DataFields(v);
    if fields.None? then None
    else
      var id, caption := StrAt(fields.value, "id"), StrAt(fields.value, "label");
      if id.None? || caption.None? || ReadElementId(id.value).None? then None
      else Some(NodeItem(ReadElementId(id.value).value, caption.value))
  }

  function ReadEdgeJson(v: Json): Option<Item> {
    var fields := DataFields(v);
    if fields.None? then None
    else
      var source, target, caption :=
        StrAt(fields.value, "source"), StrAt(fields.value, "target"), StrAt(fields.value, "label");
      if source.None? || target.None? || caption.None? then None
      else
        var a, b := ReadElementId(source.value), ReadElementId(target.value);
        if a.None? || b.None? then None else Some(EdgeItem(a.value, b.value, caption.value))
  }

  function ReadAll(read: Json -> Option<Item>, vs: seq<Json>): Option<seq<Item>> {
    if vs == [] then Some([])
    else
      var first, rest := read(vs[0]), ReadAll(read, vs[1..]);
      if first.None? || rest.None? then None else Some([first.value] + rest.value)
  }

  /** The items of `{"nodes": [...], "edges": [...]}`, nodes first. */
  function ReadPayload(v: Json): Option<seq<Item>> {
    if v.Obj? && |v.fields| == 2 && v.fields[0].key == "nodes" && v.fields[0].value.Arr?
       && v.fields[1].key == "edges" && v.fields[1].value.Arr?
    then
      var nodes, edges :=
        ReadAll(ReadNodeJson, v.fields[0].value.items), ReadAll(ReadEdgeJson, v.fields[1].value.items);
      if nodes.None? || edges.None? then None else Some(nodes.value + edges.value)
    else None
  }

  /** What a reader of the script text gets. */
  function ScriptItems(text: string): Option<seq<Item>> {
    var v := Loads(text);
    if v.None? then None else ReadPayload(v.value)
  }

  lemma {:induction false} ReadAllElements(read: Json -> Option<Item>, vs: seq<Json>, items: seq<Item>)
    requires |vs| == |items| && forall i :: 0 <= i < |vs| ==> read(vs[i]) == Some(items[i])
    ensures ReadAll(read, vs) == Some(items)
  {
    if vs != [] {
      ReadAllElements(read, vs[1..], items[1..]);
      assert items == [items[0]] + items[1..];
    }
  }

  lemma ElementIdReads(id: int)
    ensures ReadElementId("P" + Decimal(id)) == Some(id)
  {
    DecimalRoundTrip(id);
    assert ("P" + Decimal(id))[1..] == Decimal(id);
  }

  lemma SkipField(f: Field, rest: seq<Field>, key: string)
    ensures StrAt([f] + rest, key) == if f.key == key && f.value.Str? then Some(f.value.text) else StrAt(rest, key)
  {
    assert ([f] + rest)[1..] == rest;
  }

  lemma NodeJsonReads(p: InScopeProject)
    ensures ReadNodeJson(NodeJson(p)) == Some(NodeItem(p.id, NodeLabel(p)))
  {
    var id, caption := Field("id", Str("P" + Decimal(p.id))), Field("label", Str(NodeLabel(p)));
    assert [id, caption] == [id] + [caption] && [caption] == [caption] + [];
    SkipField(id, [caption], "id");
    SkipField(id, [caption], "label");
    SkipField(caption, [], "label");
    ElementIdReads(p.id);
  }

  lemma EdgeJsonReads(e: Edge)
    ensures ReadEdgeJson(EdgeJson(e)) == Some(RawEdge(e))
  {
    var source, target := Field("source", Str("P" + Decimal(e.source))), Field("target", Str("P" + Decimal(e.target)));
    var caption, kind := Field("label", Str(EdgeLabel(e.table, e.unknown))), Field("kind", Str("shared_table"));
    var rest2, rest1 := [caption, kind], [target, caption, kind];
    assert [source, target, caption, kind] == [source] + rest1
           && rest1 == [target] + rest2 && rest2 == [caption] + [kind];
    SkipField(source, rest1, "source");
    SkipField(source, rest1, "target");
    SkipField(source, rest1, "label");
    SkipField(target, rest2, "target");
    SkipField(target, rest2, "label");
    SkipField(caption, [kind], "label");
    ElementIdReads(e.source);
    ElementIdReads(e.target);
  }

  /** Every edge of the payload is marked as a shared table. */
  lemma EdgeKindReads(e: Edge)
    ensures DataFields(EdgeJson(e)).Some? && StrAt(DataFields(EdgeJson(e)).value, "kind") == Some("shared_table")
  {
    var source, target := Field("source", Str("P" + Decimal(e.source))), Field("target", Str("P" + Decimal(e.target)));
    var caption, kind := Field("label", Str(EdgeLabel(e.table, e.unknown))), Field("kind", Str("shared_table"));
    assert [source, target, caption, kind] == [source] + ([target] + ([caption] + [kind]));
    SkipField(source, [target] + ([caption] + [kind]), "kind");
    SkipField(target, [caption] + [kind], "kind");
    SkipField(caption, [kind], "kind");
  }

  lemma PayloadReads(g: Graph)
    ensures ReadPayload(Payload(g)) == Some(RawItems(g))
  {
    forall i | 0 <= i < |g.nodes| ensures ReadNodeJson(NodesJson(g.nodes)[i]) == Some(RawNodes(g.nodes)[i]) {
      NodeJsonReads(g.nodes[i]);
    }
    forall i | 0 <= i < |g.edges| ensures ReadEdgeJson(EdgesJson(g.edges)[i]) == Some(RawEdges(g.edges)[i]) {
      EdgeJsonReads(g.edges[i]);
    }
    ReadAllElements(ReadNodeJson, NodesJson(g.nodes), RawNodes(g.nodes));
    ReadAllElements(ReadEdgeJson, EdgesJson(g.edges), RawEdges(g.edges));
  }

  /** Reading the script text gives every node and edge with its label as written. */
  lemma ScriptReadsBack(g: Graph)
    ensures ScriptItems(ScriptSafe(Dumps(Payload(g)))) == Some(RawItems(g))
  {
    ScriptJsonRoundTrip(Payload(g));
    PayloadReads(g);
  }

  // ---------------------------------------------------------------- the two readers agree

  function QuoteItem(item: Item): Item {
    item.(caption := Quoted(item.caption))
  }

  function QuoteItems(items: seq<Item>): (r: seq<Item>)
    ensures |r| == |items| && forall i :: 0 <= i < |r| ==> r[i] == QuoteItem(items[i])
  {
    seq(|items|, i requires 0 <= i < |items| => QuoteItem(items[i]))
  }

  lemma ItemsAreQuoted(g: Graph)
    ensures ItemsOf(g) == QuoteItems(RawItems(g))
  {
    var a, b := ItemsOf(g), QuoteItems(RawItems(g));
    forall i | 0 <= i < |a| ensures a[i] == b[i] {
      if i < |g.nodes| {
        assert a[i] == NodeItemOf(g.nodes[i]) && RawItems(g)[i] == RawNodes(g.nodes)[i];
      } else {
        assert a[i] == EdgeItemOf(g.edges[i - |g.nodes|]) && RawItems(g)[i] == RawEdges(g.edges)[i - |g.nodes|];
      }
    }
  }

  /** The two embedded texts say the same thing, item by item, up to the spelling of quotation marks,
      exactly when no name holds a newline. */
  lemma EncodingsAgreeIff(g: Graph)
    ensures ScriptItems(ScriptSafe(Dumps(Payload(g)))).Some?
    ensures ParseMermaid(MermaidText(g)) == Some(QuoteItems(ScriptItems(ScriptSafe(Dumps(Payload(g)))).value)) <==>
            NewlineFree(g)
  {
    ScriptReadsBack(g);
    ItemsAreQuoted(g);
    MermaidRoundTripIff(g);
  }

  // ---------------------------------------------------------------- from items to a graph

  /** Table and mode out of an edge label: the longest reading that ends in the suffix is a mode. */
  function ReadEdgeLabel(x: string): Option<(string, bool)> {
    if !StartsWith(x, TABLE_LABEL) then None
    else
      var rest := x[|TABLE_LABEL|..];
      if EndsWith(rest, UNKNOWN_ACCESS_SUFFIX) then Some((rest[..|rest| - |UNKNOWN_ACCESS_SUFFIX|], true))
      else Some((rest, false))
  }

  /** The path out of a node label. */
  function ReadNodeLabel(id: int, x: string): Option<string> {
    if StartsWith(x, Decimal(id) + " ") then Some(x[|Decimal(id) + " "|..]) else None
  }

  function ReadNode(item: Item): Option<InScopeProject>
    requires item.NodeItem?
  {
    var path := ReadNodeLabel(item.id, item.caption);
    if path.None? then None else Some(InScopeProject(item.id, path.value))
  }

  function ReadEdge(item: Item): Option<Edge>
    requires item.EdgeItem?
  {
    var r := ReadEdgeLabel(item.caption);
    if r.None? then None else Some(Edge(item.source, item.target, r.value.0, r.value.1))
  }

  /** The graph that a list of items describes. */
  function Build(items: seq<Item>): Option<Graph> {
    if items == [] then Some(Graph([], []))
    else
      var rest := Build(items[1..]);
      if rest.None? then None
      else if items[0].NodeItem? then
        var p := ReadNode(items[0]);
        if p.None? then None else Some(Graph([p.value] + rest.value.nodes, rest.value.edges))
      else
        var e := ReadEdge(items[0]);
        if e.None? then None else Some(Graph(rest.value.nodes, [e.value] + rest.value.edges))
  }

  /** The edge's label can be told from that of any other table and mode. */
  predicate Tellable(e: Edge) {
    e.unknown || !EndsWith(e.table, UNKNOWN_ACCESS_SUFFIX)
  }

  lemma EdgeLabelReadsIff(x: string, table: string, unknown: bool)
    ensures ReadEdgeLabel(x) == Some((table, unknown)) <==>
            x == EdgeLabel(table, unknown) && (unknown || !EndsWith(table, UNKNOWN_ACCESS_SUFFIX))
  {
    var y := EdgeLabel(table, unknown);
    assert y == TABLE_LABEL + (table + (if unknown then UNKNOWN_ACCESS_SUFFIX else ""));
    assert y[..|TABLE_LABEL|] == TABLE_LABEL;
    assert y[|TABLE_LABEL|..] == table + (if unknown then UNKNOWN_ACCESS_SUFFIX else "");
    if unknown {
      assert (table + UNKNOWN_ACCESS_SUFFIX)[..|table|] == table;
      assert (table + UNKNOWN_ACCESS_SUFFIX)[|table|..] == UNKNOWN_ACCESS_SUFFIX;
    } else {
      assert table + "" == table;
    }
    if StartsWith(x, TABLE_LABEL) {
      var rest := x[|TABLE_LABEL|..];
      assert x == TABLE_LABEL + rest;
      if EndsWith(rest, UNKNOWN_ACCESS_SUFFIX) {
        assert rest == rest[..|rest| - |UNKNOWN_ACCESS_SUFFIX|] + UNKNOWN_ACCESS_SUFFIX;
      }
    }
  }

  lemma NodeLabelReadsIff(x: string, p: InScopeProject)
    ensures ReadNodeLabel(p.id, x) == Some(p.path) <==> x == NodeLabel(p)
  {
    var prefix := Decimal(p.id) + " ";
    assert NodeLabel(p) == prefix + p.path;
    assert NodeLabel(p)[..|prefix|] == prefix && NodeLabel(p)[|prefix|..] == p.path;
    if StartsWith(x, prefix) { assert x == prefix + x[|prefix|..]; }
  }

  /** The items of a graph, labelled as `captions` says. */
  ghost predicate Drawn(nodeItems: seq<Item>, edgeItems: seq<Item>, g: Graph) {
    && |nodeItems| == |g.nodes| && |edgeItems| == |g.edges|
    && (forall i :: 0 <= i < |nodeItems| ==> nodeItems[i].NodeItem? && nodeItems[i].id == g.nodes[i].id)
    && (forall i :: 0 <= i < |edgeItems| ==>
          && edgeItems[i].EdgeItem?
          && edgeItems[i].source == g.edges[i].source && edgeItems[i].target == g.edges[i].target)
  }

  lemma BuildNode(item: Item, rest: seq<Item>, p: InScopeProject, nodes: seq<InScopeProject>, edges: seq<Edge>)
    requires item.NodeItem?
    ensures Build([item] + rest) == Some(Graph([p] + nodes, edges)) <==>
            ReadNode(item) == Some(p) && Build(rest) == Some(Graph(nodes, edges))
  {
    assert ([item] + rest)[1..] == rest;
    if Build([item] + rest) == Some(Graph([p] + nodes, edges)) {
      var q, ns := ReadNode(item).value, Build(rest).value.nodes;
      assert ([q] + ns)[0] == ([p] + nodes)[0] && ([q] + ns)[1..] == ([p] + nodes)[1..];
    }
  }

  lemma BuildEdge(item: Item, rest: seq<Item>, e: Edge, nodes: seq<InScopeProject>, edges: seq<Edge>)
    requires item.EdgeItem?
    ensures Build([item] + rest) == Some(Graph(nodes, [e] + edges)) <==>
            ReadEdge(item) == Some(e) && Build(rest) == Some(Graph(nodes, edges))
  {
    assert ([item] + rest)[1..] == rest;
    if Build([item] + rest) == Some(Graph(nodes, [e] + edges)) {
      var f, es := ReadEdge(item).value, Build(rest).value.edges;
      assert ([f] + es)[0] == ([e] + edges)[0] && ([f] + es)[1..] == ([e] + edges)[1..];
    }
  }

  lemma {:induction false} BuildEdgesIff(items: seq<Item>, edges: seq<Edge>)
    requires |items| == |edges| && forall i :: 0 <= i < |items| ==> items[i].EdgeItem?
    ensures Build(items) == Some(Graph([], edges)) <==>
            forall i :: 0 <= i < |items| ==> ReadEdge(items[i]) == Some(edges[i])
  {
    if items != [] {
      BuildEdgesIff(items[1..], edges[1..]);
      BuildEdge(items[0], items[1..], edges[0], [], edges[1..]);
      assert items == [items[0]] + items[1..] && edges == [edges[0]] + edges[1..];
      assert forall i :: 1 <= i < |items| ==> items[i] == items[1..][i - 1] && edges[i] == edges[1..][i - 1];
    }
  }

  ghost predicate NodesRead(items: seq<Item>, nodes: seq<InScopeProject>) {
    && |items| == |nodes|
    && (forall i :: 0 <= i < |items| ==> items[i].NodeItem?)
    && (forall i :: 0 <= i < |items| ==> ReadNode(items[i]) == Some(nodes[i]))
  }

  lemma NodesReadHead(items: seq<Item>, nodes: seq<InScopeProject>)
    requires |items| == |nodes| > 0 && items[0].NodeItem?
    ensures NodesRead(items, nodes) <==> ReadNode(items[0]) == Some(nodes[0]) && NodesRead(items[1..], nodes[1..])
  {
    assert forall i :: 1 <= i < |items| ==> items[i] == items[1..][i - 1] && nodes[i] == nodes[1..][i - 1];
  }

  lemma HeadOfAppend<T>(xs: seq<T>, ys: seq<T>)
    requires xs != []
    ensures xs + ys == [xs[0]] + (xs[1..] + ys)
  {}

  lemma BuildNodeHead(items: seq<Item>, others: seq<Item>, nodes: seq<InScopeProject>, edges: seq<Edge>)
    requires |items| == |nodes| > 0 && items[0].NodeItem?
    ensures Build(items + others) == Some(Graph(nodes, edges)) <==>
            ReadNode(items[0]) == Some(nodes[0]) && Build(items[1..] + others) == Some(Graph(nodes[1..], edges))
  {
    HeadOfAppend(items, others);
    assert nodes == [nodes[0]] + nodes[1..];
    BuildNode(items[0], items[1..] + others, nodes[0], nodes[1..], edges);
  }

  lemma {:induction false} BuildNodesIff(items: seq<Item>, others: seq<Item>, nodes: seq<InScopeProject>,
        edges: seq<Edge>)
    requires |items| == |nodes| && forall i :: 0 <= i < |items| ==> items[i].NodeItem?
    ensures Build(items + others) == Some(Graph(nodes, edges)) <==>
            NodesRead(items, nodes) && Build(others) == Some(Graph([], edges))
    decreases |items|
  {
    if items == [] {
      assert items + others == others;
    } else {
      BuildNodesIff(items[1..], others, nodes[1..], edges);
      NodesReadHead(items, nodes);
      BuildNodeHead(items, others, nodes, edges);
    }
  }

  /** Items build the graph they are drawn for exactly when every label reads as its own. */
  lemma BuildIff(nodeItems: seq<Item>, edgeItems: seq<Item>, g: Graph)
    requires Drawn(nodeItems, edgeItems, g)
    ensures Build(nodeItems + edgeItems) == Some(g) <==>
            && (forall i :: 0 <= i < |g.nodes| ==> nodeItems[i].caption == NodeLabel(g.nodes[i]))
            && (forall i :: 0 <= i < |g.edges| ==>
                  edgeItems[i].caption == EdgeLabel(g.edges[i].table, g.edges[i].unknown) && Tellable(g.edges[i]))
  {
    BuildNodesIff(nodeItems, edgeItems, g.nodes, g.edges);
    BuildEdgesIff(edgeItems, g.edges);
    forall i | 0 <= i < |g.nodes|
      ensures ReadNode(nodeItems[i]) == Some(g.nodes[i]) <==> nodeItems[i].caption == NodeLabel(g.nodes[i])
    {
      NodeLabelReadsIff(nodeItems[i].caption, g.nodes[i]);
    }
    forall i | 0 <= i < |g.edges|
      ensures ReadEdge(edgeItems[i]) == Some(g.edges[i]) <==>
              edgeItems[i].caption == EdgeLabel(g.edges[i].table, g.edges[i].unknown) && Tellable(g.edges[i])
    {
      EdgeLabelReadsIff(edgeItems[i].caption, g.edges[i].table, g.edges[i].unknown);
    }
  }

  /** The graph behind the script text. */
  function ScriptGraph(text: string): Option<Graph> {
    var items := ScriptItems(text);
    if items.None? then None else Build(items.value)
  }

  /** The script text gives the graph back, exactly when no table of known mode ends in the suffix. */
  lemma ScriptRecoversGraphIff(g: Graph)
    ensures ScriptGraph(ScriptSafe(Dumps(Payload(g)))) == Some(g) <==> forall e :: e in g.edges ==> Tellable(e)
  {
    ScriptReadsBack(g);
    BuildIff(RawNodes(g.nodes), RawEdges(g.edges), g);
    forall e | e in g.edges ensures exists i :: 0 <= i < |g.edges| && g.edges[i] == e {}
  }

  // ---------------------------------------------------------------- the graph behind the Mermaid text

  /** An item as Mermaid displays it. */
  function ShownItem(item: Item): Item {
    item.(caption := Replace(item.caption, "&quot;", "\""))
  }

  function ShownItems(items: seq<Item>): (r: seq<Item>)
    ensures |r| == |items| && forall i :: 0 <= i < |r| ==> r[i] == ShownItem(items[i])
  {
    seq(|items|, i requires 0 <= i < |items| => ShownItem(items[i]))
  }

  function MermaidGraph(text: string): Option<Graph> {
    var items := ParseMermaid(text);
    if items.None? then None else Build(ShownItems(items.value))
  }

  /** No project path and no table name spells out the entity. */
  ghost predicate EntityFree(g: Graph) {
    && (forall p :: p in g.nodes ==> !Contains(p.path, "&quot;"))
    && (forall e :: e in g.edges ==> !Contains(e.table, "&quot;"))
  }

  lemma {:induction false} ContainsAfter(prefix: string, s: string)
    requires '&' !in prefix
    ensures Contains(prefix + s, "&quot;") <==> Contains(s, "&quot;")
  {
    if prefix == "" {
      assert prefix + s == s;
    } else {
      ContainsAfter(prefix[1..], s);
      assert (prefix + s)[1..] == prefix[1..] + s;
      DiffersAt(prefix + s, "&quot;", 0);
    }
  }

  lemma NoAmpersandNoEntity(s: string)
    requires '&' !in s
    ensures !Contains(s, "&quot;")
  {
    if s != "" {
      NoAmpersandNoEntity(s[1..]);
      DiffersAt(s, "&quot;", 0);
    }
  }

  lemma {:induction false} ContainsBefore(s: string, suffix: string)
    requires '&' !in suffix && (suffix == "" || suffix[0] == ' ')
    ensures Contains(s + suffix, "&quot;") <==> Contains(s, "&quot;")
  {
    if s == "" {
      assert s + suffix == suffix;
      NoAmpersandNoEntity(suffix);
    } else {
      ContainsBefore(s[1..], suffix);
      assert (s + suffix)[1..] == s[1..] + suffix;
      if |s| >= 6 {
        assert (s + suffix)[..6] == s[..6];
      } else if suffix != "" {
        assert (s + suffix)[|s|] == ' ' && "&quot;"[|s|] != ' ';
        DiffersAt(s + suffix, "&quot;", |s|);
      } else {
        assert s + suffix == s;
      }
    }
  }

  lemma NodeLabelHasEntityIff(p: InScopeProject)
    ensures Contains(NodeLabel(p), "&quot;") <==> Contains(p.path, "&quot;")
  {
    DecimalRoundTrip(p.id);
    assert '&' !in "-0123456789";
    ContainsAfter(Decimal(p.id) + " ", p.path);
  }

  lemma EdgeLabelHasEntityIff(table: string, unknown: bool)
    ensures Contains(EdgeLabel(table, unknown), "&quot;") <==> Contains(table, "&quot;")
  {
    var suffix := if unknown then UNKNOWN_ACCESS_SUFFIX else "";
    assert EdgeLabel(table, unknown) == TABLE_LABEL + (table + suffix);
    ContainsAfter(TABLE_LABEL, table + suffix);
    ContainsBefore(table, suffix);
  }

  lemma ShownIsDisplayed(caption: string)
    ensures Replace(Quoted(caption), "&quot;", "\"") == Displayed(caption)
  {
    EscapeIsSafeAndDecodes(caption);
  }

  /** The items read from the Mermaid text, as displayed, build the graph exactly when no name spells out
      the entity and every label is tellable. */
  lemma ShownItemsBuildIff(g: Graph)
    ensures Build(ShownItems(ItemsOf(g))) == Some(g) <==> EntityFree(g) && forall e :: e in g.edges ==> Tellable(e)
  {
    var nodeItems, edgeItems := ShownItems(NodeItems(g.nodes)), ShownItems(EdgeItems(g.edges));
    assert ShownItems(ItemsOf(g)) == nodeItems + edgeItems;
    BuildIff(nodeItems, edgeItems, g);
    forall i | 0 <= i < |g.nodes|
      ensures nodeItems[i].caption == NodeLabel(g.nodes[i]) <==> !Contains(g.nodes[i].path, "&quot;")
    {
      ShownIsDisplayed(NodeLabel(g.nodes[i]));
      DisplayedAsWrittenIff(NodeLabel(g.nodes[i]));
      NodeLabelHasEntityIff(g.nodes[i]);
    }
    forall i | 0 <= i < |g.edges|
      ensures edgeItems[i].caption == EdgeLabel(g.edges[i].table, g.edges[i].unknown) <==>
              !Contains(g.edges[i].table, "&quot;")
    {
      var caption := EdgeLabel(g.edges[i].table, g.edges[i].unknown);
      ShownIsDisplayed(caption);
      DisplayedAsWrittenIff(caption);
      EdgeLabelHasEntityIff(g.edges[i].table, g.edges[i].unknown);
    }
    NamesByPosition(g);
  }

  lemma NamesByPosition(g: Graph)
    ensures EntityFree(g) <==>
            && (forall i :: 0 <= i < |g.nodes| ==> !Contains(g.nodes[i].path, "&quot;"))
            && (forall i :: 0 <= i < |g.edges| ==> !Contains(g.edges[i].table, "&quot;"))
    ensures (forall e :: e in g.edges ==> Tellable(e)) <==> forall i :: 0 <= i < |g.edges| ==> Tellable(g.edges[i])
  {
    forall p | p in g.nodes ensures exists i :: 0 <= i < |g.nodes| && g.nodes[i] == p {}
    forall e | e in g.edges ensures exists i :: 0 <= i < |g.edges| && g.edges[i] == e {}
  }

  lemma {:induction false} BuildSize(items: seq<Item>)
    ensures Build(items).Some? ==> |Build(items).value.nodes| + |Build(items).value.edges| == |items|
  {
    if items != [] { BuildSize(items[1..]); }
  }

  /** The Mermaid text gives the graph back exactly when no name holds a newline or spells out the entity
      for a quotation mark, and no table of known mode ends in the suffix. */
  lemma MermaidRecoversGraphIff(g: Graph)
    ensures MermaidGraph(MermaidText(g)) == Some(g) <==>
            NewlineFree(g) && EntityFree(g) && forall e :: e in g.edges ==> Tellable(e)
  {
    MermaidRoundTripIff(g);
    if NewlineFree(g) {
      ShownItemsBuildIff(g);
    } else {
      MoreItemsThanDrawn(g);
      var items := ParseMermaid(MermaidText(g));
      if items.Some? { BuildSize(ShownItems(items.value)); }
    }
  }

  /** A newline in a name splits a line in two, and the reader gets another number of items, if any. */
  lemma MoreItemsThanDrawn(g: Graph)
    requires !NewlineFree(g)
    ensures var items := ParseMermaid(MermaidText(g)); items.Some? ==> |items.value| != |g.nodes| + |g.edges|
  {
    LinesAreNewlineFreeIff(g);
    SplitJoin([HEADER] + NodeLines(g.nodes) + EdgeLines(g.edges));
    ParsedLength(MermaidText(g));
  }

  // ---------------------------------------------------------------- what each text determines

  /** The two edges carry the same label between the same ids. */
  predicate Alike(e: Edge, f: Edge) {
    && e.source == f.source && e.target == f.target
    && (|| (e.table == f.table && e.unknown == f.unknown)
        || (e.unknown && !f.unknown && f.table == e.table + UNKNOWN_ACCESS_SUFFIX)
        || (f.unknown && !e.unknown && e.table == f.table + UNKNOWN_ACCESS_SUFFIX))
  }

  ghost predicate GraphsAlike(g: Graph, h: Graph) {
    && g.nodes == h.nodes && |g.edges| == |h.edges|
    && forall i :: 0 <= i < |g.edges| ==> Alike(g.edges[i], h.edges[i])
  }

  lemma AlikeIff(e: Edge, f: Edge)
    ensures Alike(e, f) <==> RawEdge(e) == RawEdge(f)
  {
    EdgeLabelEqualIff(e.table, e.unknown, f.table, f.unknown);
  }

  lemma NodeLabelDetermines(p: InScopeProject, q: InScopeProject)
    ensures NodeItem(p.id, NodeLabel(p)) == NodeItem(q.id, NodeLabel(q)) <==> p == q
  {
    NodeLabelReadsIff(NodeLabel(p), p);
    NodeLabelReadsIff(NodeLabel(p), q);
  }

  /** The payload determines the nodes whole, and the edges up to the suffix case. */
  lemma PayloadDeterminesGraph(g: Graph, h: Graph)
    ensures Payload(g) == Payload(h) <==> GraphsAlike(g, h)
  {
    if Payload(g) == Payload(h) {
      assert NodesJson(g.nodes) == NodesJson(h.nodes) && EdgesJson(g.edges) == EdgesJson(h.edges);
      forall i | 0 <= i < |g.nodes| ensures g.nodes[i] == h.nodes[i] {
        assert NodesJson(g.nodes)[i] == NodesJson(h.nodes)[i];
        NodeJsonReads(g.nodes[i]);
        NodeJsonReads(h.nodes[i]);
        NodeLabelDetermines(g.nodes[i], h.nodes[i]);
      }
      forall i | 0 <= i < |g.edges| ensures Alike(g.edges[i], h.edges[i]) {
        assert EdgesJson(g.edges)[i] == EdgesJson(h.edges)[i];
        EdgeJsonReads(g.edges[i]);
        EdgeJsonReads(h.edges[i]);
        AlikeIff(g.edges[i], h.edges[i]);
      }
    }
    if GraphsAlike(g, h) {
      forall i | 0 <= i < |g.edges| ensures EdgeJson(g.edges[i]) == EdgeJson(h.edges[i]) {
        AlikeIff(g.edges[i], h.edges[i]);
      }
      assert EdgesJson(g.edges) == EdgesJson(h.edges);
    }
  }

  /** The graph with every quotation mark in its names spelled as the entity. */
  function QuotedGraph(g: Graph): Graph {
    Graph(QuotedNodes(g.nodes), QuotedEdges(g.edges))
  }

  function QuotedNodes(nodes: seq<InScopeProject>): (r: seq<InScopeProject>)
    ensures |r| == |nodes|
    ensures forall i :: 0 <= i < |r| ==> r[i] == InScopeProject(nodes[i].id, Quoted(nodes[i].path))
  {
    seq(|nodes|, i requires 0 <= i < |nodes| => InScopeProject(nodes[i].id, Quoted(nodes[i].path)))
  }

  function QuotedEdges(edges: seq<Edge>): (r: seq<Edge>)
    ensures |r| == |edges|
    ensures forall i :: 0 <= i < |r| ==> r[i] == edges[i].(table := Quoted(edges[i].table))
  {
    seq(|edges|, i requires 0 <= i < |edges| => edges[i].(table := Quoted(edges[i].table)))
  }

  lemma QuotedNodeLabel(p: InScopeProject)
    ensures Quoted(NodeLabel(p)) == NodeLabel(InScopeProject(p.id, Quoted(p.path)))
  {
    DecimalRoundTrip(p.id);
    assert '"' !in "-0123456789";
    Unreplaced(Decimal(p.id) + " ", '"', "&quot;");
    ReplaceCharAppend(Decimal(p.id) + " ", p.path, '"', "&quot;");
  }

  lemma QuotedEdgeLabel(table: string, unknown: bool)
    ensures Quoted(EdgeLabel(table, unknown)) == EdgeLabel(Quoted(table), unknown)
  {
    var suffix := if unknown then UNKNOWN_ACCESS_SUFFIX else "";
    Unreplaced(TABLE_LABEL, '"', "&quot;");
    Unreplaced(suffix, '"', "&quot;");
    ReplaceCharAppend(TABLE_LABEL, table, '"', "&quot;");
    ReplaceCharAppend(TABLE_LABEL + table, suffix, '"', "&quot;");
  }

  lemma ItemsAreThoseOfTheQuotedGraph(g: Graph)
    ensures NodeItems(g.nodes) == RawNodes(QuotedNodes(g.nodes)) && EdgeItems(g.edges) == RawEdges(QuotedEdges(g.edges))
  {
    forall i | 0 <= i < |g.nodes| ensures NodeItems(g.nodes)[i] == RawNodes(QuotedNodes(g.nodes))[i] {
      QuotedNodeLabel(g.nodes[i]);
    }
    forall i | 0 <= i < |g.edges| ensures EdgeItems(g.edges)[i] == RawEdges(QuotedEdges(g.edges))[i] {
      QuotedEdgeLabel(g.edges[i].table, g.edges[i].unknown);
    }
  }

  lemma RawItemsDetermine(g: Graph, h: Graph)
    ensures RawItems(g) == RawItems(h) <==> GraphsAlike(g, h)
  {
    if RawItems(g) == RawItems(h) {
      SameSplit(g, h);
      forall i | 0 <= i < |g.nodes| ensures g.nodes[i] == h.nodes[i] {
        assert RawNodes(g.nodes)[i] == RawNodes(h.nodes)[i];
        NodeLabelDetermines(g.nodes[i], h.nodes[i]);
      }
      forall i | 0 <= i < |g.edges| ensures Alike(g.edges[i], h.edges[i]) {
        assert RawEdges(g.edges)[i] == RawEdges(h.edges)[i];
        AlikeIff(g.edges[i], h.edges[i]);
      }
    }
    if GraphsAlike(g, h) {
      forall i | 0 <= i < |g.edges| ensures RawEdge(g.edges[i]) == RawEdge(h.edges[i]) {
        AlikeIff(g.edges[i], h.edges[i]);
      }
      assert RawEdges(g.edges) == RawEdges(h.edges);
    }
  }

  lemma NodesFit(g: Graph, h: Graph)
    requires RawItems(g) == RawItems(h)
    ensures |g.nodes| <= |h.nodes|
  {
    if |g.nodes| > 0 {
      assert RawItems(h)[|g.nodes| - 1] == RawNodes(g.nodes)[|g.nodes| - 1];
    }
  }

  /** Nodes and edges of equal lists of items part at the same place. */
  lemma SameSplit(g: Graph, h: Graph)
    requires RawItems(g) == RawItems(h)
    ensures RawNodes(g.nodes) == RawNodes(h.nodes) && RawEdges(g.edges) == RawEdges(h.edges)
  {
    var a, b := RawItems(g), RawItems(h);
    NodesFit(g, h);
    NodesFit(h, g);
    assert a[..|g.nodes|] == RawNodes(g.nodes) && b[..|h.nodes|] == RawNodes(h.nodes);
    assert a[|g.nodes|..] == RawEdges(g.edges) && b[|h.nodes|..] == RawEdges(h.edges);
  }

  /** For newline-free graphs the Mermaid text determines as much as the payload does, up to the spelling
      of quotation marks. */
  lemma MermaidDeterminesGraph(g: Graph, h: Graph)
    requires NewlineFree(g) && NewlineFree(h)
    ensures MermaidText(g) == MermaidText(h) <==> GraphsAlike(QuotedGraph(g), QuotedGraph(h))
  {
    MermaidRoundTripIff(g);
    MermaidRoundTripIff(h);
    ItemsAreThoseOfTheQuotedGraph(g);
    ItemsAreThoseOfTheQuotedGraph(h);
    RawItemsDetermine(QuotedGraph(g), QuotedGraph(h));
    if ItemsOf(g) == ItemsOf(h) {
      SameSplit(QuotedGraph(g), QuotedGraph(h));
      SameItemsSameLines(g, h);
    }
  }

  lemma SameItemsSameLines(g: Graph, h: Graph)
    requires NodeItems(g.nodes) == NodeItems(h.nodes) && EdgeItems(g.edges) == EdgeItems(h.edges)
    ensures MermaidText(g) == MermaidText(h)
  {
    forall i | 0 <= i < |g.nodes| ensures NodeLine(g.nodes[i]) == NodeLine(h.nodes[i]) {
      assert NodeItems(g.nodes)[i] == NodeItems(h.nodes)[i];
      EscapeEqualIff(NodeLabel(g.nodes[i]), NodeLabel(h.nodes[i]));
    }
    forall i | 0 <= i < |g.edges| ensures EdgeLine(g.edges[i]) == EdgeLine(h.edges[i]) {
      var e, f := g.edges[i], h.edges[i];
      assert EdgeItems(g.edges)[i] == EdgeItems(h.edges)[i];
      EscapeEqualIff(EdgeLabel(e.table, e.unknown), EdgeLabel(f.table, f.unknown));
    }
    assert NodeLines(g.nodes) == NodeLines(h.nodes) && EdgeLines(g.edges) == EdgeLines(h.edges);
  }
}
