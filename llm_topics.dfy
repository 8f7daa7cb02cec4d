/** Topics, and the part of topic extraction that follows the network call:
    removing a Markdown fence from the reply, decoding it, and turning the
    decoded elements into `Topic` records. Decoding (`json.loads`) is a
    parameter: it yields the decoded elements or nothing when the text is not
    valid JSON. */
module LlmTopics {
  import opened Wrappers
  import opened PyStr

  /** A topic found in a text. */
  datatype Topic = Topic(name: string, description: string, confidence: real, keywords: seq<string>)

  /** One decoded element of the reply; a key the reply left out is `None`. */
  datatype JsonTopic = JsonTopic(name: Option<string>, description: Option<string>,
                                 confidence: Option<real>, keywords: Option<seq<string>>)

  /** The exceptions raised by the LLM services. */
  datatype LlmError =
    | NoTextForSummary  // "No text provided for summarization"
    | NoTextForConcepts  // "No text provided for concept identification"
    | NoTextForTopics  // "No text provided for topic extraction"
    | NoChunks  // "No text chunks provided"
    | Undecodable  // json.JSONDecodeError
    | MissingKey(key: string)  // KeyError on a decoded element
    | NoSecondPart  // IndexError from `split(". ", 1)[1]`

  const JsonFence: string := "```json"
  const Fence: string := "```"

  predicate Complete(j: JsonTopic) {
    j.name.Some? && j.description.Some? && j.confidence.Some? && j.keywords.Some?
  }

  /** `Topic(name=t["name"], ...)`: the keys are read in declaration order, so
      the first one missing is the one reported. */
  function TopicOf(j: JsonTopic): (r: Result<Topic, LlmError>)
    ensures r.Ok? <==> Complete(j)
    ensures r.Ok? ==> r.value == Topic(j.name.value, j.description.value, j.confidence.value, j.keywords.value)
    ensures j.name.None? ==> r == Err(MissingKey("name"))
    ensures j.name.Some? && j.description.None? ==> r == Err(MissingKey("description"))
    ensures j.name.Some? && j.description.Some? && j.confidence.None? ==> r == Err(MissingKey("confidence"))
    ensures j.name.Some? && j.description.Some? && j.confidence.Some? && j.keywords.None? ==> r == Err(MissingKey("keywords"))
  {
    if j.name.None? then Err(MissingKey("name"))
    else if j.description.None? then Err(MissingKey("description"))
    else if j.confidence.None? then Err(MissingKey("confidence"))
    else if j.keywords.None? then Err(MissingKey("keywords"))
    else Ok(Topic(j.name.value, j.description.value, j.confidence.value, j.keywords.value))
  }

  /** The list comprehension over the decoded array: one topic per element, in
      order, fields copied; it fails exactly when some element lacks a key. */
  function MapTopics(items: seq<JsonTopic>): (r: Result<seq<Topic>, LlmError>)
    ensures r.Ok? <==> forall k :: 0 <= k < |items| ==> Complete(items[k])
    ensures r.Ok? ==> |r.value| == |items|
    ensures r.Ok? ==> forall k :: 0 <= k < |items| ==> r.value[k] == TopicOf(items[k]).value
    ensures r.Err? ==> r.error.MissingKey?
  {
    if items == [] then Ok([])
    else
      var head :- TopicOf(items[0]);
      var tail :- MapTopics(items[1..]);
      Ok([head] + tail)
  }

  /** Decoding the cleaned reply and mapping its elements. */
  function TopicsOfPayload(payload: string, decode: string -> Option<seq<JsonTopic>>): (r: Result<seq<Topic>, LlmError>)
    ensures decode(payload).None? ==> r == Err(Undecodable)
    ensures decode(payload).Some? ==> r == MapTopics(decode(payload).value)
  {
    match decode(payload)
    case None => Err(Undecodable)
    case Some(items) => MapTopics(items)
  }

  /** The topic extractors' fence removal: a leading "```json" is dropped only
      as a prefix, a trailing "```" only as a suffix, then the text is
      stripped. */
  function ExtractorFence(content: string): (r: string)
    ensures |r| <= |content|
  {
    var a := if StartsWith(content, JsonFence) then content[7..] else content;
    var b := if EndsWith(a, Fence) then a[..|a| - 3] else a;
    Strip(b)
  }

  /** A reply wrapped in a fence gives back its stripped body, whatever the
      body holds. */
  lemma ExtractorFenceUnwraps(body: string)
    ensures ExtractorFence(JsonFence + body + Fence) == Strip(body)
  {
    var content := JsonFence + body + Fence;
    assert content[..7] == JsonFence;
    var a := content[7..];
    assert a == body + Fence;
    assert a[|a| - 3..] == Fence;
    assert a[..|a| - 3] == body;
  }

  /** A fence that is not at the very start or end is left in place: such a
      reply is only stripped. */
  lemma ExtractorFenceKeeps(content: string)
    requires !StartsWith(content, JsonFence) && !EndsWith(content, Fence)
    ensures ExtractorFence(content) == Strip(content)
  {
  }

  /** The topic extraction of both extractor classes once the reply is in:
      the chunk list must not be empty; the reply loses its fence and is
      decoded into topics. */
  function ExtractorOutcome(chunks: seq<string>, content: string, decode: string -> Option<seq<JsonTopic>>)
    : (r: Result<seq<Topic>, LlmError>)
    ensures chunks == [] <==> r == Err(NoChunks)
    ensures chunks != [] ==> r == TopicsOfPayload(ExtractorFence(content), decode)
  {
    if chunks == [] then Err(NoChunks)
    else TopicsOfPayload(ExtractorFence(content), decode)
  }
}
