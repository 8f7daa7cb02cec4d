/** The flowchart records: concepts as nodes, relationships as edges. */
module FlowchartBase {
  import opened Wrappers

  /** A concept; without a description and fully confident unless told otherwise. */
  datatype Node = Node(id: string, labelText: string, description: Option<string> := None, confidence: real := 1.0)

  /** A relationship from `source` to `target`. */
  datatype Edge = Edge(source: string, target: string, labelText: string, description: Option<string> := None)

  /** A complete chart; the node and edge lists are stored as given. */
  datatype Flowchart = Flowchart(nodes: seq<Node>, edges: seq<Edge>, title: string, description: Option<string> := None)

  /** Python's truth test on an optional string: `None` and `""` are false. */
  predicate Truthy(s: Option<string>) {
    s.Some? && s.value != []
  }

  /** The fields left out at construction take their documented defaults, and
      the ones supplied are kept. */
  lemma RecordDefaults(id: string, labelText: string, source: string, target: string,
                       nodes: seq<Node>, edges: seq<Edge>, title: string)
    ensures var n := Node(id, labelText);
      n.id == id && n.labelText == labelText && n.description == None && n.confidence == 1.0
    ensures var e := Edge(source, target, labelText);
      e.source == source && e.target == target && e.labelText == labelText && e.description == None
    ensures var f := Flowchart(nodes, edges, title);
      f.nodes == nodes && f.edges == edges && f.title == title && f.description == None
  {
  }
}
