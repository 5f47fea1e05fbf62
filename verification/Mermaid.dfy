/** The Mermaid text of a graph: escaped labels, one line per node and edge, and reading it back. */
module Mermaid {
  import opened Base
  import opened Text
  import opened DependencyGraph

  // ---------------------------------------------------------------- labels

  /** `html.escape(text.replace('"', "&quot;"), quote=False)`. */
  function Escape(text: string): string {
    var quoted := Replace(text, "\"", "&quot;");
    Replace(Replace(Replace(quoted, "&", "&amp;"), "<", "&lt;"), ">", "&gt;")
  }

  /** The label with each quotation mark spelled as Mermaid's own entity. */
  function Quoted(text: string): string {
    Replace(text, "\"", "&quot;")
  }

  /** What the head of a text decodes to, and how many characters that takes up: an entity of one of
      the four special characters, or one character as it is. */
  function HtmlUnit(s: string): (unit: (string, nat))
    requires s != ""
    ensures 0 < unit.1 <= |s|
  {
    if StartsWith(s, "&amp;") then ("&", 5)
    else if StartsWith(s, "&lt;") then ("<", 4)
    else if StartsWith(s, "&gt;") then (">", 4)
    else if StartsWith(s, "&quot;") then ("\"", 6)
    else ([s[0]], 1)
  }

  /** One pass of HTML entity decoding. */
  function HtmlUnescape(s: string): string
    decreases |s|
  {
    if s == "" then "" else HtmlUnit(s).0 + HtmlUnescape(s[HtmlUnit(s).1..])
  }

  /** What a reader sees: the browser decodes the text once, then Mermaid turns its entity into a
      quotation mark. */
  function Displayed(text: string): string {
    Replace(HtmlUnescape(Escape(text)), "&quot;", "\"")
  }

  function HtmlChar(c: char): string {
    if c == '&' then "&amp;" else if c == '<' then "&lt;" else if c == '>' then "&gt;" else [c]
  }

  /** `html.escape(s, quote=False)` character by character. */
  function HtmlEscape(s: string): string {
    if s == "" then "" else HtmlChar(s[0]) + HtmlEscape(s[1..])
  }

  function ThreeReplaces(s: string): string {
    Replace(Replace(Replace(s, "&", "&amp;"), "<", "&lt;"), ">", "&gt;")
  }

  lemma ThreeReplacesAppend(s: string, t: string)
    ensures ThreeReplaces(s + t) == ThreeReplaces(s) + ThreeReplaces(t)
  {
    ReplaceCharAppend(s, t, '&', "&amp;");
    var s1, t1 := Replace(s, "&", "&amp;"), Replace(t, "&", "&amp;");
    ReplaceCharAppend(s1, t1, '<', "&lt;");
    ReplaceCharAppend(Replace(s1, "<", "&lt;"), Replace(t1, "<", "&lt;"), '>', "&gt;");
  }

  lemma ThreeReplacesOfChar(c: char)
    ensures ThreeReplaces([c]) == HtmlChar(c)
  {
    ReplaceCharHead(c, "", '&', "&amp;");
    assert [c] + "" == [c];
    var once := Replace([c], "&", "&amp;");
    assert once == if c == '&' then "&amp;" else [c];
    if c == '&' {
      Unreplaced("&amp;", '<', "&lt;");
      Unreplaced("&amp;", '>', "&gt;");
    } else {
      ReplaceCharHead(c, "", '<', "&lt;");
      if c == '<' {
        Unreplaced("&lt;", '>', "&gt;");
      } else {
        ReplaceCharHead(c, "", '>', "&gt;");
      }
    }
  }

  lemma {:induction false} ThreeReplacesIsHtmlEscape(s: string)
    ensures ThreeReplaces(s) == HtmlEscape(s)
  {
    if s != "" {
      assert s == [s[0]] + s[1..];
      ThreeReplacesAppend([s[0]], s[1..]);
      ThreeReplacesOfChar(s[0]);
      ThreeReplacesIsHtmlEscape(s[1..]);
    }
  }

  lemma HtmlUnitOfEscaped(c: char, rest: string)
    requires c != '"'
    ensures HtmlUnit(HtmlChar(c) + rest) == ([c], |HtmlChar(c)|)
  {
    var s := HtmlChar(c) + rest;
    if c == '&' {
      assert s[..5] == "&amp;";
    } else if c == '<' {
      assert s[..4] == "&lt;";
      DiffersAt(s, "&amp;", 1);
    } else if c == '>' {
      assert s[..4] == "&gt;";
      DiffersAt(s, "&amp;", 1);
      DiffersAt(s, "&lt;", 1);
    } else {
      assert s[0] == c;
    }
  }

  lemma UnescapeHead(c: char, rest: string)
    requires c != '"'
    ensures HtmlUnescape(HtmlChar(c) + rest) == [c] + HtmlUnescape(rest)
  {
    HtmlUnitOfEscaped(c, rest);
    assert (HtmlChar(c) + rest)[|HtmlChar(c)|..] == rest;
  }

  lemma {:induction false} HtmlEscapeIsSafe(s: string)
    requires '"' !in s
    ensures '"' !in HtmlEscape(s) && '<' !in HtmlEscape(s) && '>' !in HtmlEscape(s)
  {
    if s != "" {
      HtmlEscapeIsSafe(s[1..]);
      assert s == [s[0]] + s[1..];
    }
  }

  lemma {:induction false} HtmlEscapeKeepsNewlines(s: string)
    ensures '\n' in HtmlEscape(s) <==> '\n' in s
  {
    if s != "" {
      HtmlEscapeKeepsNewlines(s[1..]);
      assert s == [s[0]] + s[1..];
    }
  }

  lemma {:induction false} HtmlEscapeDecodes(s: string)
    requires '"' !in s
    ensures HtmlUnescape(HtmlEscape(s)) == s
  {
    if s != "" {
      HtmlEscapeDecodes(s[1..]);
      UnescapeHead(s[0], HtmlEscape(s[1..]));
      assert s == [s[0]] + s[1..];
    }
  }

  lemma {:induction false} QuotedHasNoQuote(s: string)
    ensures '"' !in Quoted(s)
    ensures '\n' in Quoted(s) <==> '\n' in s
  {
    if s != "" {
      QuotedHasNoQuote(s[1..]);
      ReplaceCharHead(s[0], s[1..], '"', "&quot;");
      assert s == [s[0]] + s[1..];
    }
  }

  /** An escaped label can neither close the quoted label nor open or close a tag; decoding it once
      gives the label back with quotation marks as entities. */
  lemma EscapeIsSafeAndDecodes(text: string)
    ensures '"' !in Escape(text) && '<' !in Escape(text) && '>' !in Escape(text)
    ensures HtmlUnescape(Escape(text)) == Quoted(text)
    ensures '\n' in Escape(text) <==> '\n' in text
  {
    ThreeReplacesIsHtmlEscape(Quoted(text));
    QuotedHasNoQuote(text);
    HtmlEscapeIsSafe(Quoted(text));
    HtmlEscapeKeepsNewlines(Quoted(text));
    HtmlEscapeDecodes(Quoted(text));
  }

  /** Two labels escape to the same text exactly when they differ at most in writing a quotation mark
      as `"` or as its entity. */
  lemma EscapeEqualIff(s: string, t: string)
    ensures Escape(s) == Escape(t) <==> Quoted(s) == Quoted(t)
  {
    EscapeIsSafeAndDecodes(s);
    EscapeIsSafeAndDecodes(t);
  }

  /** Escaping is not injective. */
  lemma EscapeConflatesQuoteAndEntity()
    ensures Escape("\"") == Escape("&quot;") && "\"" != "&quot;"
  {
    assert Quoted("\"") == "&quot;" by {
      ReplaceCharHead('"', "", '"', "&quot;");
      assert ['"'] + "" == "\"";
    }
    Unreplaced("&quot;", '"', "&quot;");
  }

  /** Where a copied character begins Mermaid's entity after quoting, it began it before. */
  lemma {:induction false} EntityTailWasThere(s: string, tail: string)
    requires '&' !in tail && '"' !in tail && StartsWith(Quoted(s), tail)
    ensures StartsWith(s, tail)
    decreases |s|
  {
    if s != "" && tail != "" {
      assert s == [s[0]] + s[1..];
      ReplaceCharHead(s[0], s[1..], '"', "&quot;");
      assert Quoted(s)[0] == tail[0];
      if s[0] != '"' {
        var q := Quoted(s[1..]);
        assert Quoted(s)[1..] == q;
        assert q[..|tail| - 1] == Quoted(s)[..|tail|][1..] == tail[1..];
        EntityTailWasThere(s[1..], tail[1..]);
        assert s[..|tail|] == [s[0]] + s[1..][..|tail| - 1];
      }
    }
  }

  /** A label is displayed as written exactly when it does not spell out the entity itself. */
  lemma {:induction false} DisplayedAsWrittenIff(text: string)
    ensures |Displayed(text)| <= |text|
    ensures Displayed(text) == text <==> !Contains(text, "&quot;")
    decreases |text|
  {
    EscapeIsSafeAndDecodes(text);
    if text != "" {
      var c, rest := text[0], text[1..];
      assert text == [c] + rest;
      EscapeIsSafeAndDecodes(rest);
      ReplaceCharHead(c, rest, '"', "&quot;");
      DisplayedAsWrittenIff(rest);
      if c == '"' {
        assert Quoted(text)[..6] == "&quot;" && Quoted(text)[6..] == Quoted(rest);
      } else if StartsWith(text, "&quot;") {
        EntityIsDisplayedShorter(text);
      } else {
        assert Quoted(text) == [c] + Quoted(rest);
        assert Quoted(text)[1..] == Quoted(rest);
        if StartsWith(Quoted(text), "&quot;") {
          assert Quoted(rest)[..5] == Quoted(text)[..6][1..] == "quot;";
          EntityTailWasThere(rest, "quot;");
          assert false;
        }
        assert Displayed(text) == [c] + Displayed(rest);
      }
    }
  }

  lemma {:induction false} EntityIsDisplayedShorter(text: string)
    requires StartsWith(text, "&quot;")
    ensures |Displayed(text)| < |text|
    decreases |text|, 0
  {
    var tail := text[6..];
    assert text == "&quot;" + tail;
    EscapeIsSafeAndDecodes(text);
    EscapeIsSafeAndDecodes(tail);
    ReplaceCharAppend("&quot;", tail, '"', "&quot;");
    Unreplaced("&quot;", '"', "&quot;");
    assert Quoted(text)[..6] == "&quot;" && Quoted(text)[6..] == Quoted(tail);
    DisplayedAsWrittenIff(tail);
    assert Displayed(text) == "\"" + Displayed(tail);
  }

  // ---------------------------------------------------------------- lines

  const TABLE_LABEL := "shared table: "
  const UNKNOWN_ACCESS_SUFFIX := " [access: unknown]"

  function EdgeLabel(table: string, unknown: bool): string {
    TABLE_LABEL + table + (if unknown then UNKNOWN_ACCESS_SUFFIX else "")
  }

  function NodeLabel(p: InScopeProject): string {
    Decimal(p.id) + " " + p.path
  }

  function NodeLine(p: InScopeProject): string {
    "P" + Decimal(p.id) + "[\"" + Escape(NodeLabel(p)) + "\"]"
  }

  function EdgeLine(e: Edge): string {
    "P" + Decimal(e.source) + " ---|\"" + Escape(EdgeLabel(e.table, e.unknown)) + "\"| P" + Decimal(e.target)
  }

  function NodeLines(nodes: seq<InScopeProject>): (lines: seq<string>)
    ensures |lines| == |nodes|
    ensures forall i :: 0 <= i < |nodes| ==> lines[i] == NodeLine(nodes[i])
  {
    seq(|nodes|, i requires 0 <= i < |nodes| => NodeLine(nodes[i]))
  }

  function EdgeLines(edges: seq<Edge>): (lines: seq<string>)
    ensures |lines| == |edges|
    ensures forall i :: 0 <= i < |edges| ==> lines[i] == EdgeLine(edges[i])
  {
    seq(|edges|, i requires 0 <= i < |edges| => EdgeLine(edges[i]))
  }

  const HEADER := "graph LR"

  function MermaidText(g: Graph): string {
    JoinLines([HEADER] + NodeLines(g.nodes) + EdgeLines(g.edges))
  }

  /** The labels of one project and of one shared table, and the text of an empty graph, letter by letter. */
  lemma AsPrinted()
    ensures NodeLabel(InScopeProject(7, "g/p")) == "7 g/p"
    ensures EdgeLabel("orders", false) == "shared table: orders"
    ensures EdgeLabel("orders", true) == "shared table: orders [access: unknown]"
    ensures MermaidText(Graph([], [])) == "graph LR"
  {
    assert Decimal(7) == "7";
    assert [HEADER] + NodeLines([]) + EdgeLines([]) == [HEADER];
  }

  // ---------------------------------------------------------------- reading the text back

  /** What one line says: a node or an edge, with its label as the browser hands it to Mermaid. */
  datatype Item = NodeItem(id: int, caption: string) | EdgeItem(source: int, target: int, caption: string)

  /** The position of the first quotation mark, or the length. */
  function QuoteAt(s: string): (n: nat)
    ensures n <= |s|
    ensures n < |s| ==> s[n] == '"'
  {
    if s == "" || s[0] == '"' then 0 else 1 + QuoteAt(s[1..])
  }

  function ParseLine(line: string): Option<Item> {
    if line == "" || line[0] != 'P' then None
    else
      var n := IntPrefix(line[1..]);
      ParseAfterId(ParseInt(line[1..][..n]), line[1..][n..])
  }

  function ParseAfterId(id: int, rest: string): Option<Item> {
    if StartsWith(rest, "[\"") then
      var body := rest[2..];
      var q := QuoteAt(body);
      if body[q..] == "\"]" then Some(NodeItem(id, HtmlUnescape(body[..q]))) else None
    else if StartsWith(rest, " ---|\"") then
      var body := rest[6..];
      var q := QuoteAt(body);
      if StartsWith(body[q..], "\"| P") then
        Some(EdgeItem(id, ParseInt(body[q..][4..]), HtmlUnescape(body[..q])))
      else None
    else None
  }

  /** Applies `parse` to every line, failing if it fails anywhere. */
  function ParseAll<T>(parse: string -> Option<T>, lines: seq<string>): Option<seq<T>> {
    if lines == [] then Some([])
    else
      var first, rest := parse(lines[0]), ParseAll(parse, lines[1..]);
      if first.None? || rest.None? then None else Some([first.value] + rest.value)
  }

  function ParseMermaid(text: string): Option<seq<Item>> {
    var lines := Split(text, '\n');
    if lines[0] != HEADER then None else ParseAll(ParseLine, lines[1..])
  }

  function NodeItemOf(p: InScopeProject): Item {
    NodeItem(p.id, Quoted(NodeLabel(p)))
  }

  function EdgeItemOf(e: Edge): Item {
    EdgeItem(e.source, e.target, Quoted(EdgeLabel(e.table, e.unknown)))
  }

  function NodeItems(nodes: seq<InScopeProject>): (items: seq<Item>)
    ensures |items| == |nodes|
    ensures forall i :: 0 <= i < |nodes| ==> items[i] == NodeItemOf(nodes[i])
  {
    seq(|nodes|, i requires 0 <= i < |nodes| => NodeItemOf(nodes[i]))
  }

  function EdgeItems(edges: seq<Edge>): (items: seq<Item>)
    ensures |items| == |edges|
    ensures forall i :: 0 <= i < |edges| ==> items[i] == EdgeItemOf(edges[i])
  {
    seq(|edges|, i requires 0 <= i < |edges| => EdgeItemOf(edges[i]))
  }

  /** Everything a graph says, with quotation marks in labels as entities. */
  function ItemsOf(g: Graph): seq<Item> {
    NodeItems(g.nodes) + EdgeItems(g.edges)
  }

  ghost predicate NewlineFree(g: Graph) {
    && (forall p :: p in g.nodes ==> '\n' !in p.path)
    && (forall e :: e in g.edges ==> '\n' !in e.table)
  }

  lemma {:induction false} QuoteAtEnd(body: string, rest: string)
    requires '"' !in body && rest != "" && rest[0] == '"'
    ensures QuoteAt(body + rest) == |body|
  {
    if body == "" {
      assert body + rest == rest;
    } else {
      QuoteAtEnd(body[1..], rest);
      assert (body + rest)[1..] == body[1..] + rest;
    }
  }

  lemma NodeRestParses(id: int, caption: string)
    ensures ParseAfterId(id, "[\"" + Escape(caption) + "\"]") == Some(NodeItem(id, Quoted(caption)))
  {
    var esc := Escape(caption);
    var rest := "[\"" + (esc + "\"]");
    EscapeIsSafeAndDecodes(caption);
    assert rest == "[\"" + esc + "\"]";
    assert rest[..2] == "[\"" && rest[2..] == esc + "\"]";
    QuoteAtEnd(esc, "\"]");
    assert (esc + "\"]")[..|esc|] == esc && (esc + "\"]")[|esc|..] == "\"]";
  }

  lemma EdgeRestParses(id: int, caption: string, target: int)
    ensures ParseAfterId(id, " ---|\"" + Escape(caption) + "\"| P" + Decimal(target)) ==
            Some(EdgeItem(id, target, Quoted(caption)))
  {
    var esc, tail := Escape(caption), "\"| P" + Decimal(target);
    var rest := " ---|\"" + (esc + tail);
    EscapeIsSafeAndDecodes(caption);
    DecimalRoundTrip(target);
    assert rest == " ---|\"" + esc + "\"| P" + Decimal(target);
    assert rest[..6] == " ---|\"" && rest[6..] == esc + tail;
    DiffersAt(rest, "[\"", 0);
    QuoteAtEnd(esc, tail);
    assert (esc + tail)[..|esc|] == esc && (esc + tail)[|esc|..] == tail;
    assert tail[..4] == "\"| P" && tail[4..] == Decimal(target);
  }

  lemma DigitsParse(digits: string, rest: string)
    requires forall i :: 0 <= i < |digits| ==> digits[i] in "-0123456789"
    requires rest != "" && rest[0] !in "-0123456789"
    ensures ParseLine("P" + digits + rest) == ParseAfterId(ParseInt(digits), rest)
  {
    var line := "P" + digits + rest;
    IntPrefixOfDecimal(digits, rest);
    assert line[1..] == digits + rest;
    assert line[1..][..|digits|] == digits && line[1..][|digits|..] == rest;
  }

  /** A line is read as its leading id and the rest. */
  lemma IdParses(id: int, rest: string)
    requires rest != "" && rest[0] !in "-0123456789"
    ensures ParseLine("P" + Decimal(id) + rest) == ParseAfterId(id, rest)
  {
    DecimalRoundTrip(id);
    DigitsParse(Decimal(id), rest);
  }

  lemma NodeLineParses(p: InScopeProject)
    ensures ParseLine(NodeLine(p)) == Some(NodeItemOf(p))
  {
    var rest := "[\"" + Escape(NodeLabel(p)) + "\"]";
    IdParses(p.id, rest);
    NodeRestParses(p.id, NodeLabel(p));
    Regroup("P" + Decimal(p.id), "[\"", Escape(NodeLabel(p)), "\"]", "");
    assert NodeLine(p) + "" == NodeLine(p) && rest + "" == rest;
  }

  lemma Regroup(a: string, b: string, c: string, d: string, e: string)
    ensures a + b + c + d + e == a + (b + c + d + e)
  {}

  lemma EdgeLineParses(e: Edge)
    ensures ParseLine(EdgeLine(e)) == Some(EdgeItemOf(e))
  {
    var caption := EdgeLabel(e.table, e.unknown);
    var rest := " ---|\"" + Escape(caption) + "\"| P" + Decimal(e.target);
    IdParses(e.source, rest);
    EdgeRestParses(e.source, caption, e.target);
    Regroup("P" + Decimal(e.source), " ---|\"", Escape(caption), "\"| P", Decimal(e.target));
  }

  /** Lines that all parse, parse together. */
  lemma {:induction false} LinesParse<T>(parse: string -> Option<T>, lines: seq<string>, items: seq<T>)
    requires |lines| == |items|
    requires forall i :: 0 <= i < |lines| ==> parse(lines[i]) == Some(items[i])
    ensures ParseAll(parse, lines) == Some(items)
  {
    if lines != [] {
      LinesParse(parse, lines[1..], items[1..]);
      assert items == [items[0]] + items[1..];
    }
  }

  lemma {:induction false} ParseAllLength<T>(parse: string -> Option<T>, lines: seq<string>)
    ensures ParseAll(parse, lines).Some? ==> |ParseAll(parse, lines).value| == |lines|
  {
    if lines != [] { ParseAllLength(parse, lines[1..]); }
  }

  lemma DecimalHasNoNewline(n: int)
    ensures '\n' !in Decimal(n)
  {
    DecimalRoundTrip(n);
    assert '\n' !in "-0123456789";
  }

  lemma NewlineOnlyInPath(p: InScopeProject)
    ensures '\n' in NodeLine(p) <==> '\n' in p.path
  {
    EscapeIsSafeAndDecodes(NodeLabel(p));
    DecimalHasNoNewline(p.id);
  }

  lemma NewlineOnlyInTable(e: Edge)
    ensures '\n' in EdgeLine(e) <==> '\n' in e.table
  {
    EscapeIsSafeAndDecodes(EdgeLabel(e.table, e.unknown));
    DecimalHasNoNewline(e.source);
    DecimalHasNoNewline(e.target);
  }

  lemma NodeLinesReadBack(nodes: seq<InScopeProject>)
    ensures forall i :: 0 <= i < |nodes| ==> ParseLine(NodeLines(nodes)[i]) == Some(NodeItems(nodes)[i])
  {
    forall i | 0 <= i < |nodes| ensures ParseLine(NodeLines(nodes)[i]) == Some(NodeItems(nodes)[i]) {
      NodeLineParses(nodes[i]);
    }
  }

  lemma EdgeLinesReadBack(edges: seq<Edge>)
    ensures forall i :: 0 <= i < |edges| ==> ParseLine(EdgeLines(edges)[i]) == Some(EdgeItems(edges)[i])
  {
    forall i | 0 <= i < |edges| ensures ParseLine(EdgeLines(edges)[i]) == Some(EdgeItems(edges)[i]) {
      EdgeLineParses(edges[i]);
    }
  }

  lemma LinesReadBack(g: Graph, body: seq<string>, items: seq<Item>)
    requires body == NodeLines(g.nodes) + EdgeLines(g.edges) && items == ItemsOf(g)
    ensures ParseAll(ParseLine, body) == Some(items)
  {
    NodeLinesReadBack(g.nodes);
    EdgeLinesReadBack(g.edges);
    forall i | 0 <= i < |body| ensures ParseLine(body[i]) == Some(items[i]) {
      if i < |g.nodes| {
        assert body[i] == NodeLines(g.nodes)[i] && items[i] == NodeItems(g.nodes)[i];
      } else {
        assert body[i] == EdgeLines(g.edges)[i - |g.nodes|] && items[i] == EdgeItems(g.edges)[i - |g.nodes|];
      }
    }
    LinesParse(ParseLine, body, items);
  }

  lemma ParsedLength(text: string)
    ensures ParseMermaid(text).Some? ==> |ParseMermaid(text).value| == |Split(text, '\n')| - 1
  {
    ParseAllLength(ParseLine, Split(text, '\n')[1..]);
  }

  /** Reading the text back gives every node and every edge, in order, exactly when no project path
      and no table name contains a newline. */
  lemma MermaidRoundTripIff(g: Graph)
    ensures ParseMermaid(MermaidText(g)) == Some(ItemsOf(g)) <==> NewlineFree(g)
  {
    var body := NodeLines(g.nodes) + EdgeLines(g.edges);
    LinesAreNewlineFreeIff(g);
    assert [HEADER] + NodeLines(g.nodes) + EdgeLines(g.edges) == [HEADER] + body;
    LinesReadBack(g, body, ItemsOf(g));
    TextReadsBackIff(body, ItemsOf(g));
  }

  /** Lines that each read as an item read back together exactly when none holds a newline. */
  lemma TextReadsBackIff(body: seq<string>, items: seq<Item>)
    requires |body| == |items| && ParseAll(ParseLine, body) == Some(items)
    ensures ParseMermaid(JoinLines([HEADER] + body)) == Some(items) <==> forall l :: l in [HEADER] + body ==> '\n' !in l
  {
    var lines := [HEADER] + body;
    SplitJoin(lines);
    ParsedLength(JoinLines(lines));
    assert lines[1..] == body;
  }

  lemma LinesAreNewlineFreeIff(g: Graph)
    ensures NewlineFree(g) <==> forall l :: l in [HEADER] + NodeLines(g.nodes) + EdgeLines(g.edges) ==> '\n' !in l
  {
    NodeLinesAreNewlineFreeIff(g.nodes);
    EdgeLinesAreNewlineFreeIff(g.edges);
    var lines := [HEADER] + NodeLines(g.nodes) + EdgeLines(g.edges);
    assert forall l :: l in lines <==> l == HEADER || l in NodeLines(g.nodes) || l in EdgeLines(g.edges);
    assert '\n' !in HEADER;
  }

  lemma NodeLinesAreNewlineFreeIff(nodes: seq<InScopeProject>)
    ensures (forall p :: p in nodes ==> '\n' !in p.path) <==> forall l :: l in NodeLines(nodes) ==> '\n' !in l
  {
    forall p | p in nodes ensures '\n' in NodeLine(p) <==> '\n' in p.path { NewlineOnlyInPath(p); }
    if p :| p in nodes && '\n' in p.path {
      var i :| 0 <= i < |nodes| && nodes[i] == p;
      assert NodeLines(nodes)[i] in NodeLines(nodes);
    }
  }

  lemma EdgeLinesAreNewlineFreeIff(edges: seq<Edge>)
    ensures (forall e :: e in edges ==> '\n' !in e.table) <==> forall l :: l in EdgeLines(edges) ==> '\n' !in l
  {
    forall e | e in edges ensures '\n' in EdgeLine(e) <==> '\n' in e.table { NewlineOnlyInTable(e); }
    if e :| e in edges && '\n' in e.table {
      var i :| 0 <= i < |edges| && edges[i] == e;
      assert EdgeLines(edges)[i] in EdgeLines(edges);
    }
  }

  /** An edge's label tells its table and its mode apart, except that a table whose own name ends in
      the unknown-access suffix looks like the shorter name with an unknown mode. */
  lemma EdgeLabelEqualIff(table: string, unknown: bool, table': string, unknown': bool)
    ensures EdgeLabel(table, unknown) == EdgeLabel(table', unknown') <==>
            || (table == table' && unknown == unknown')
            || (unknown && !unknown' && table' == table + UNKNOWN_ACCESS_SUFFIX)
            || (unknown' && !unknown && table == table' + UNKNOWN_ACCESS_SUFFIX)
  {
    var shown := table + (if unknown then UNKNOWN_ACCESS_SUFFIX else "");
    var shown' := table' + (if unknown' then UNKNOWN_ACCESS_SUFFIX else "");
    assert EdgeLabel(table, unknown)[|TABLE_LABEL|..] == shown
           && EdgeLabel(table', unknown')[|TABLE_LABEL|..] == shown';
    assert shown[..|table|] == table && shown'[..|table'|] == table';
  }
}
