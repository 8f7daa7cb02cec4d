/** `OpenAIFlowchartGenerator.generate_flowchart`: settles the topic and the
    keywords, asks for a flowchart, and turns the decoded reply into
    `Flowchart` records. The topic extractor and the chat call are inputs:
    `extract` is what the extractor returns for a list of chunks, and
    `response` is the decoded reply, `None` when it is not valid JSON. */
module FlowchartOpenAi {
  import opened Wrappers
  import opened FlowchartBase
  import LlmTopics
  import Mermaid

  /** One decoded node; a key the reply left out is `None`. */
  datatype JsonNode = JsonNode(id: Option<string>, labelText: Option<string>,
                               description: Option<string>, confidence: Option<real>)

  /** One decoded edge; a key the reply left out is `None`. */
  datatype JsonEdge = JsonEdge(source: Option<string>, target: Option<string>,
                               labelText: Option<string>, description: Option<string>)

  /** The decoded reply object. */
  datatype JsonChart = JsonChart(nodes: Option<seq<JsonNode>>, edges: Option<seq<JsonEdge>>)

  /** The ways `generate_flowchart` fails. */
  datatype GenerateError =
    | ExtractionFailed(cause: LlmTopics.LlmError)  // raised by the topic extractor
    | NoTopicExtracted  // IndexError on `topics[0]`
    | Undecodable  // json.JSONDecodeError
    | MissingKey(key: string)  // KeyError on the decoded reply

  const TitlePrefix: string := "Flowchart: "
  const DescriptionPrefix: string := "Flowchart generated from text about "

  /** The topic and keywords to focus on: when either is missing the
      extractor runs on `[text]` and the first topic it returns fills in the
      missing ones only. */
  function ResolveFocus(text: string, topic: Option<string>, keywords: Option<seq<string>>,
                        extract: seq<string> -> Result<seq<LlmTopics.Topic>, LlmTopics.LlmError>)
    : (r: Result<(string, seq<string>), GenerateError>)
    ensures topic.Some? && keywords.Some? ==> r == Ok((topic.value, keywords.value))
    ensures r.Ok? && topic.Some? ==> r.value.0 == topic.value
    ensures r.Ok? && keywords.Some? ==> r.value.1 == keywords.value
    ensures r.Ok? && (topic.None? || keywords.None?) ==>
      && extract([text]).Ok? && extract([text]).value != []
      && r.value.0 == topic.GetOr(extract([text]).value[0].name)
      && r.value.1 == keywords.GetOr(extract([text]).value[0].keywords)
    ensures r.Err? <==> (topic.None? || keywords.None?) && (extract([text]).Err? || extract([text]).value == [])
  {
    if topic.None? || keywords.None? then
      match extract([text])
      case Err(e) => Err(ExtractionFailed(e))
      case Ok(topics) =>
        if topics == [] then Err(NoTopicExtracted)
        else Ok((topic.GetOr(topics[0].name), keywords.GetOr(topics[0].keywords)))
    else Ok((topic.value, keywords.value))
  }

  /** When both are supplied the extractor is not consulted: any two
      extractors give the same focus. */
  lemma FocusIgnoresExtractor(text: string, topic: Option<string>, keywords: Option<seq<string>>,
                              e1: seq<string> -> Result<seq<LlmTopics.Topic>, LlmTopics.LlmError>,
                              e2: seq<string> -> Result<seq<LlmTopics.Topic>, LlmTopics.LlmError>)
    requires topic.Some? && keywords.Some?
    ensures ResolveFocus(text, topic, keywords, e1) == ResolveFocus(text, topic, keywords, e2)
  {
  }

  predicate NodeComplete(j: JsonNode) {
    j.id.Some? && j.labelText.Some? && j.confidence.Some?
  }

  predicate EdgeComplete(j: JsonEdge) {
    j.source.Some? && j.target.Some? && j.labelText.Some?
  }

  /** `Node(id=node["id"], label=node["label"],
      description=node.get("description", ""), confidence=node["confidence"])`:
      the keys are read in that order, and a missing description becomes "". */
  function NodeOf(j: JsonNode): (r: Result<Node, GenerateError>)
    ensures r.Ok? <==> NodeComplete(j)
    ensures r.Err? ==> r.error.MissingKey?
  {
    if j.id.None? then Err(MissingKey("id"))
    else if j.labelText.None? then Err(MissingKey("label"))
    else if j.confidence.None? then Err(MissingKey("confidence"))
    else Ok(Node(j.id.value, j.labelText.value, Some(j.description.GetOr("")), j.confidence.value))
  }

  /** `Edge(source=edge["source"], target=edge["target"], label=edge["label"],
      description=edge.get("description", ""))` */
  function EdgeOf(j: JsonEdge): (r: Result<Edge, GenerateError>)
    ensures r.Ok? <==> EdgeComplete(j)
    ensures r.Err? ==> r.error.MissingKey?
  {
    if j.source.None? then Err(MissingKey("source"))
    else if j.target.None? then Err(MissingKey("target"))
    else if j.labelText.None? then Err(MissingKey("label"))
    else Ok(Edge(j.source.value, j.target.value, j.labelText.value, Some(j.description.GetOr(""))))
  }

  /** The node comprehension: one node per decoded node, in order, with its
      fields copied and the description defaulting to "". */
  function ConvertNodes(js: seq<JsonNode>): (r: Result<seq<Node>, GenerateError>)
    ensures r.Ok? <==> forall k :: 0 <= k < |js| ==> NodeComplete(js[k])
    ensures r.Ok? ==> |r.value| == |js|
    ensures r.Ok? ==> forall k :: 0 <= k < |js| ==>
      r.value[k] == Node(js[k].id.value, js[k].labelText.value, Some(js[k].description.GetOr("")), js[k].confidence.value)
    ensures r.Err? ==> r.error.MissingKey?
  {
    if js == [] then Ok([])
    else
      var head :- NodeOf(js[0]);
      var tail :- ConvertNodes(js[1..]);
      Ok([head] + tail)
  }

  /** The edge comprehension: one edge per decoded edge, in order, with its
      fields copied and the description defaulting to "". */
  function ConvertEdges(js: seq<JsonEdge>): (r: Result<seq<Edge>, GenerateError>)
    ensures r.Ok? <==> forall k :: 0 <= k < |js| ==> EdgeComplete(js[k])
    ensures r.Ok? ==> |r.value| == |js|
    ensures r.Ok? ==> forall k :: 0 <= k < |js| ==>
      r.value[k] == Edge(js[k].source.value, js[k].target.value, js[k].labelText.value, Some(js[k].description.GetOr("")))
    ensures r.Err? ==> r.error.MissingKey?
  {
    if js == [] then Ok([])
    else
      var head :- EdgeOf(js[0]);
      var tail :- ConvertEdges(js[1..]);
      Ok([head] + tail)
  }

  /** Everything the reply must hold for the conversion to succeed. */
  predicate WellFormed(data: JsonChart) {
    && data.nodes.Some? && data.edges.Some?
    && (forall k :: 0 <= k < |data.nodes.value| ==> NodeComplete(data.nodes.value[k]))
    && (forall k :: 0 <= k < |data.edges.value| ==> EdgeComplete(data.edges.value[k]))
  }

  /** `generate_flowchart`: settle the focus, then decode the reply, then
      build the nodes, then the edges; the chart is titled after the topic. */
  function GenerateFlowchart(text: string, topic: Option<string>, keywords: Option<seq<string>>,
                             extract: seq<string> -> Result<seq<LlmTopics.Topic>, LlmTopics.LlmError>,
                             response: Option<JsonChart>)
    : (r: Result<Flowchart, GenerateError>)
    ensures r.Ok? <==> ResolveFocus(text, topic, keywords, extract).Ok? && response.Some? && WellFormed(response.value)
    ensures ResolveFocus(text, topic, keywords, extract).Ok? && response.None? ==> r == Err(Undecodable)
    ensures r.Ok? ==>
      var t := ResolveFocus(text, topic, keywords, extract).value.0;
      r.value.title == TitlePrefix + t && r.value.description == Some(DescriptionPrefix + t)
    ensures r.Ok? ==> var js := response.value.nodes.value;
      && |r.value.nodes| == |js|
      && forall k :: 0 <= k < |js| ==>
        r.value.nodes[k] == Node(js[k].id.value, js[k].labelText.value, Some(js[k].description.GetOr("")), js[k].confidence.value)
    ensures r.Ok? ==> var js := response.value.edges.value;
      && |r.value.edges| == |js|
      && forall k :: 0 <= k < |js| ==>
        r.value.edges[k] == Edge(js[k].source.value, js[k].target.value, js[k].labelText.value, Some(js[k].description.GetOr("")))
  {
    var focus :- ResolveFocus(text, topic, keywords, extract);
    match response
    case None => Err(Undecodable)
    case Some(data) =>
      if data.nodes.None? then Err(MissingKey("nodes"))
      else
        var nodes :- ConvertNodes(data.nodes.value);
        if data.edges.None? then Err(MissingKey("edges"))
        else
          var edges :- ConvertEdges(data.edges.value);
          Ok(Flowchart(nodes, edges, TitlePrefix + focus.0, Some(DescriptionPrefix + focus.0)))
  }

  /** Defaulting the description to "" rather than `None` still keeps the
      tooltip out of the diagram: a generated node gets a tooltip line
      exactly when the reply gave it a non-empty description. */
  lemma GeneratedTooltips(text: string, topic: Option<string>, keywords: Option<seq<string>>,
                          extract: seq<string> -> Result<seq<LlmTopics.Topic>, LlmTopics.LlmError>,
                          response: Option<JsonChart>, k: nat)
    requires GenerateFlowchart(text, topic, keywords, extract, response).Ok?
    requires k < |response.value.nodes.value|
    ensures var node := GenerateFlowchart(text, topic, keywords, extract, response).value.nodes[k];
      var given := response.value.nodes.value[k].description;
      |Mermaid.NodeLines(node)| == 2 <==> given.Some? && given.value != ""
  {
    var node := GenerateFlowchart(text, topic, keywords, extract, response).value.nodes[k];
    Mermaid.NodeLinesShape(node);
  }
}
