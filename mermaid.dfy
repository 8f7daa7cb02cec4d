/** `MermaidRenderer`: turns a flowchart into the text of a Mermaid diagram,
    one line per header, node, tooltip, edge and style definition, joined by
    newlines. */
module Mermaid {
  import opened Wrappers
  import opened PyStr
  import opened FlowchartBase

  /** A style dictionary, as its `(key, value)` items in insertion order. */
  type StyleMap = seq<(string, string)>

  /** The fixed lines of the style trailer. */
  const HighClassLine: string := "classDef highConfidence fill:#90EE90,stroke:#333"
  const MediumClassLine: string := "classDef mediumConfidence fill:#FFE4B5,stroke:#333"
  const LowClassLine: string := "classDef lowConfidence fill:#FFB6C1,stroke:#333"
  const StylesComment: string := "%% Theme and styles"

  const DefaultNodeStyle: string := "fill:#f9f9f9,stroke:#333,stroke-width:2px"

  /** `_get_node_style`: the class a node's confidence puts it in. */
  function NodeStyle(confidence: real): (style: string)
    ensures style == ":::highConfidence" <==> confidence >= 0.8
    ensures style == ":::mediumConfidence" <==> 0.6 <= confidence < 0.8
    ensures style == ":::lowConfidence" <==> confidence < 0.6
  {
    if confidence >= 0.8 then ":::highConfidence"
    else if confidence >= 0.6 then ":::mediumConfidence"
    else ":::lowConfidence"
  }

  /** How confident a style class says a node is: 0 low, 1 medium, 2 high. */
  function StyleRank(style: string): nat {
    if style == ":::highConfidence" then 2 else if style == ":::mediumConfidence" then 1 else 0
  }

  /** A more confident node never gets a lower style class. */
  lemma NodeStyleMonotone(c1: real, c2: real)
    requires c1 <= c2
    ensures StyleRank(NodeStyle(c1)) <= StyleRank(NodeStyle(c2))
  {
  }

  /** `_get_edge_style`: every edge gets the default class. */
  function EdgeStyle(): string {
    ":::default"
  }

  function StyleItem(item: (string, string)): string {
    item.0 + ":" + item.1
  }

  function StyleItems(style: StyleMap): (items: seq<string>)
    ensures |items| == |style|
    ensures forall i :: 0 <= i < |style| ==> items[i] == StyleItem(style[i])
  {
    seq(|style|, i requires 0 <= i < |style| => StyleItem(style[i]))
  }

  /** `_style_dict_to_str`: the fixed default for an empty dictionary, else
      the `key:value` items joined by commas. */
  function StyleDictToStr(style: StyleMap): (s: string)
    ensures style == [] ==> s == DefaultNodeStyle
  {
    if style == [] then DefaultNodeStyle else Join(StyleItems(style), ",")
  }

  /** A non-empty dictionary whose keys and values hold no comma can be read
      back from its style string: splitting on commas gives its items in order. */
  lemma StyleDictSplitsBack(style: StyleMap)
    requires style != []
    requires forall i :: 0 <= i < |style| ==> ',' !in style[i].0 && ',' !in style[i].1
    ensures SplitOn(StyleDictToStr(style), ',') == StyleItems(style)
  {
    var items := StyleItems(style);
    forall k | 0 <= k < |items| ensures ',' !in items[k] {
      assert items[k] == style[k].0 + ":" + style[k].1;
    }
    SplitOfJoin(items, ',');
  }

  /** The lines of each element, laid end to end in input order. */
  function FlatMap<T>(xs: seq<T>, f: T -> seq<string>): seq<string>
    decreases |xs|
  {
    if xs == [] then [] else FlatMap(xs[..|xs| - 1], f) + f(xs[|xs| - 1])
  }

  /** Laying out a list of elements is laying out its two halves. */
  lemma {:induction false} FlatMapAppend<T>(xs: seq<T>, ys: seq<T>, f: T -> seq<string>)
    ensures FlatMap(xs + ys, f) == FlatMap(xs, f) + FlatMap(ys, f)
    decreases |ys|
  {
    if ys == [] {
      assert xs + ys == xs;
    } else {
      var front := ys[..|ys| - 1];
      assert (xs + ys)[..|xs + ys| - 1] == xs + front;
      FlatMapAppend(xs, front, f);
    }
  }

  /** One more element laid out after a fixed prefix of lines. */
  lemma LayoutStep<T>(prefix: seq<string>, xs: seq<T>, i: nat, f: T -> seq<string>, before: seq<string>, after: seq<string>)
    requires i < |xs|
    requires before == prefix + FlatMap(xs[..i], f)
    requires after == before + f(xs[i])
    ensures after == prefix + FlatMap(xs[..i + 1], f)
  {
    assert xs[..i + 1][..i] == xs[..i];
  }

  /** Element `i`'s lines sit between those of the elements before it and
      those of the elements after it. */
  lemma FlatMapAt<T>(xs: seq<T>, i: nat, f: T -> seq<string>)
    requires i < |xs|
    ensures FlatMap(xs, f) == FlatMap(xs[..i], f) + f(xs[i]) + FlatMap(xs[i + 1..], f)
  {
    FlatMapSplit(xs, i + 1, f);
    FlatMapSnoc(xs, i, f);
  }

  lemma FlatMapSplit<T>(xs: seq<T>, k: nat, f: T -> seq<string>)
    requires k <= |xs|
    ensures FlatMap(xs, f) == FlatMap(xs[..k], f) + FlatMap(xs[k..], f)
  {
    assert xs == xs[..k] + xs[k..];
    FlatMapAppend(xs[..k], xs[k..], f);
  }

  lemma FlatMapSnoc<T>(xs: seq<T>, i: nat, f: T -> seq<string>)
    requires i < |xs|
    ensures FlatMap(xs[..i + 1], f) == FlatMap(xs[..i], f) + f(xs[i])
  {
    assert xs[..i + 1][..i] == xs[..i];
  }

  /** `f"    {id}[\"{label}\"]{style}"` */
  function NodeDef(id: string, labelText: string, style: string): string {
    "    " + id + "[\"" + labelText + "\"]" + style
  }

  /** `f'    click {id} tooltip "{description}"'` */
  function NodeTip(id: string, description: string): string {
    "    click " + id + " tooltip \"" + description + "\""
  }

  /** `f'    {source} -->|"{label}"| {target}{style}'` */
  function EdgeDef(source: string, labelText: string, target: string, style: string): string {
    "    " + source + " -->|\"" + labelText + "\"| " + target + style
  }

  /** `f'    click {source}_{target} tooltip "{description}"'` */
  function EdgeTip(source: string, target: string, description: string): string {
    "    click " + source + "_" + target + " tooltip \"" + description + "\""
  }

  /** A node's definition line, then its tooltip line when it has a description. */
  function NodeLines(node: Node): (lines: seq<string>)
  {
    [NodeDef(node.id, node.labelText, NodeStyle(node.confidence))]
    + (if Truthy(node.description) then [NodeTip(node.id, node.description.value)] else [])
  }

  /** An edge's definition line, then its tooltip line when it has a description. */
  function EdgeLines(edge: Edge): (lines: seq<string>)
  {
    [EdgeDef(edge.source, edge.labelText, edge.target, EdgeStyle())]
    + (if Truthy(edge.description) then [EdgeTip(edge.source, edge.target, edge.description.value)] else [])
  }

  function DirectionLine(direction: string): string {
    "flowchart " + direction
  }

  function CommentLine(text: string): string {
    "%% " + text
  }

  function Header(direction: string, chart: Flowchart): seq<string> {
    [DirectionLine(direction), CommentLine(chart.title)]
    + (if Truthy(chart.description) then [CommentLine(chart.description.value)] else [])
  }

  function ThemeLine(theme: string): string {
    "%%{init: {'theme': '" + theme + "'}}%%"
  }

  function DefaultClassLine(nodeStyle: StyleMap): string {
    "classDef default " + StyleDictToStr(nodeStyle)
  }

  /** The style definitions `render` always ends with. */
  function Trailer(theme: string, nodeStyle: StyleMap): (lines: seq<string>)
    ensures |lines| == 7
  {
    [ "",
      StylesComment,
      ThemeLine(theme),
      DefaultClassLine(nodeStyle),
      HighClassLine,
      MediumClassLine,
      LowClassLine ]
  }

  /** The lines `render` joins. */
  function RenderLines(direction: string, theme: string, nodeStyle: StyleMap, chart: Flowchart): seq<string> {
    Header(direction, chart) + FlatMap(chart.nodes, NodeLines) + FlatMap(chart.edges, EdgeLines) + Trailer(theme, nodeStyle)
  }

  /** Where each of four concatenated pieces sits. */
  lemma Pieces<T>(a: seq<T>, b: seq<T>, c: seq<T>, d: seq<T>)
    ensures var s := a + b + c + d;
      && |s| == |a| + |b| + |c| + |d|
      && s[..|a|] == a
      && s[|a|..|a| + |b|] == b
      && s[|a| + |b|..|a| + |b| + |c|] == c
      && s[|s| - |d|..] == d
  {
  }

  /** The diagram opens with the direction and the title and has a
      description line exactly when the chart has a non-empty description;
      seven style lines follow the nodes' and the edges' lines. */
  lemma RenderOpens(direction: string, theme: string, nodeStyle: StyleMap, chart: Flowchart)
    ensures var lines := RenderLines(direction, theme, nodeStyle, chart);
      var h := if Truthy(chart.description) then 3 else 2;
      && |lines| == h + |FlatMap(chart.nodes, NodeLines)| + |FlatMap(chart.edges, EdgeLines)| + 7
      && lines[0] == "flowchart " + direction
      && lines[1] == "%% " + chart.title
      && (h == 3 ==> lines[2] == "%% " + chart.description.value)
  {
    var header := Header(direction, chart);
    var lines := RenderLines(direction, theme, nodeStyle, chart);
    Pieces(header, FlatMap(chart.nodes, NodeLines), FlatMap(chart.edges, EdgeLines), Trailer(theme, nodeStyle));
    assert lines[0] == header[0] && lines[1] == header[1];
    assert Truthy(chart.description) ==> lines[2] == header[2];
  }

  /** After the header come all the nodes' lines, then all the edges' lines,
      then the seven style lines, the fourth of which carries the node style. */
  lemma RenderSections(direction: string, theme: string, nodeStyle: StyleMap, chart: Flowchart)
    ensures var lines := RenderLines(direction, theme, nodeStyle, chart);
      var h := |Header(direction, chart)|;
      var nodes := FlatMap(chart.nodes, NodeLines);
      var edges := FlatMap(chart.edges, EdgeLines);
      && |lines| == h + |nodes| + |edges| + 7
      && lines[h..h + |nodes|] == nodes
      && lines[h + |nodes|..h + |nodes| + |edges|] == edges
      && lines[|lines| - 7..] == ["", "%% Theme and styles", "%%{init: {'theme': '" + theme + "'}}%%",
                                  "classDef default " + StyleDictToStr(nodeStyle), HighClassLine, MediumClassLine, LowClassLine]
  {
    Pieces(Header(direction, chart), FlatMap(chart.nodes, NodeLines), FlatMap(chart.edges, EdgeLines), Trailer(theme, nodeStyle));
  }

  /** A node always has its definition line; it has a tooltip line exactly
      when its description is non-empty. */
  lemma NodeLinesShape(node: Node)
    ensures var lines := NodeLines(node);
      && 1 <= |lines| <= 2
      && lines[0] == "    " + node.id + "[\"" + node.labelText + "\"]" + NodeStyle(node.confidence)
      && (|lines| == 2 <==> Truthy(node.description))
      && (|lines| == 2 ==> lines[1] == "    click " + node.id + " tooltip \"" + node.description.value + "\"")
  {
  }

  /** An edge always has its definition line ending in the default class; it
      has a tooltip line exactly when its description is non-empty. */
  lemma EdgeLinesShape(edge: Edge)
    ensures var lines := EdgeLines(edge);
      && 1 <= |lines| <= 2
      && lines[0] == "    " + edge.source + " -->|\"" + edge.labelText + "\"| " + edge.target + ":::default"
      && (|lines| == 2 <==> Truthy(edge.description))
      && (|lines| == 2 ==> lines[1] == "    click " + edge.source + "_" + edge.target + " tooltip \"" + edge.description.value + "\"")
  {
  }

  /** One pass of the node loop: the node's definition, then its tooltip
      when it has a description. */
  method AppendNode(lines: seq<string>, node: Node) returns (r: seq<string>)
    ensures r == lines + NodeLines(node)
  {
    var style := NodeStyle(node.confidence);
    r := lines + [NodeDef(node.id, node.labelText, style)];
    if Truthy(node.description) {
      r := r + [NodeTip(node.id, node.description.value)];
    }
  }

  /** One pass of the edge loop: the edge's definition, then its tooltip
      when it has a description. */
  method AppendEdge(lines: seq<string>, edge: Edge) returns (r: seq<string>)
    ensures r == lines + EdgeLines(edge)
  {
    var style := EdgeStyle();
    r := lines + [EdgeDef(edge.source, edge.labelText, edge.target, style)];
    if Truthy(edge.description) {
      r := r + [EdgeTip(edge.source, edge.target, edge.description.value)];
    }
  }

  /** The renderer's settings are fixed at construction. */
  class MermaidRenderer {
    const direction: string
    const theme: string
    const nodeStyle: StyleMap
    /** Stored but never read by `render`. */
    const edgeStyle: StyleMap

    /** `__init__`: direction `"TD"` and theme `"default"` unless given; a
        missing or empty style dictionary becomes an empty one. */
    constructor(direction: string := "TD", theme: string := "default",
                nodeStyle: Option<StyleMap> := None, edgeStyle: Option<StyleMap> := None)
      ensures this.direction == direction && this.theme == theme
      ensures this.nodeStyle == nodeStyle.GetOr([]) && this.edgeStyle == edgeStyle.GetOr([])
    {
      this.direction := direction;
      this.theme := theme;
      this.nodeStyle := if nodeStyle.Some? && nodeStyle.value != [] then nodeStyle.value else [];
      this.edgeStyle := if edgeStyle.Some? && edgeStyle.value != [] then edgeStyle.value else [];
    }

    /** `render`: the header, each node's lines, each edge's lines and the
        style trailer, joined by newlines. The edge style plays no part. */
    method Render(chart: Flowchart) returns (diagram: string)
      ensures diagram == Join(RenderLines(direction, theme, nodeStyle, chart), "\n")
    {
      var lines := [DirectionLine(direction), CommentLine(chart.title)];
      if Truthy(chart.description) {
        lines := lines + [CommentLine(chart.description.value)];
      }
      ghost var header := lines;
      for i := 0 to |chart.nodes|
        invariant lines == header + FlatMap(chart.nodes[..i], NodeLines)
      {
        ghost var before := lines;
        lines := AppendNode(lines, chart.nodes[i]);
        LayoutStep(header, chart.nodes, i, NodeLines, before, lines);
      }
      assert chart.nodes[..|chart.nodes|] == chart.nodes;
      ghost var upToEdges := lines;
      for i := 0 to |chart.edges|
        invariant lines == upToEdges + FlatMap(chart.edges[..i], EdgeLines)
      {
        ghost var before := lines;
        lines := AppendEdge(lines, chart.edges[i]);
        LayoutStep(upToEdges, chart.edges, i, EdgeLines, before, lines);
      }
      assert chart.edges[..|chart.edges|] == chart.edges;
      lines := lines + Trailer(theme, nodeStyle);
      diagram := Join(lines, "\n");
    }
  }
}
