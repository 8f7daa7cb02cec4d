/** The settings of the LLM services, as pydantic models with field
    constraints. Validation checks every field and reports all the ones that
    fail, in field order; accepted values are stored as given. */
module LlmConfig {
  import opened Wrappers

  /** `LLMConfig`: the fields shared by both service settings. */
  datatype LlmSettings = LlmSettings(modelName: string, temperature: real, maxTokens: int)

  /** `SummarizerConfig`. */
  datatype SummarizerConfig = SummarizerConfig(llm: LlmSettings, maxSummaryLength: Option<int>)

  /** `TopicExtractorConfig`. */
  datatype TopicExtractorConfig = TopicExtractorConfig(llm: LlmSettings, numTopics: int, maxContextChunks: int)

  /** A field whose constraint the supplied value breaks. */
  datatype Violation =
    | TemperatureOutOfRange  // ge=0.0, le=1.0
    | MaxTokensNotPositive  // gt=0
    | MaxSummaryLengthNotPositive  // gt=0 when not None
    | NumTopicsNotPositive  // gt=0
    | MaxContextChunksNotPositive  // gt=0

  const DefaultModel: string := "gpt-3.5-turbo"
  const DefaultTemperature: real := 0.7
  const DefaultMaxTokens: int := 500
  const DefaultNumTopics: int := 5
  const DefaultMaxContextChunks: int := 1000

  function Check(fails: bool, v: Violation): seq<Violation> {
    if fails then [v] else []
  }

  /** The violations of the shared fields. */
  function LlmViolations(temperature: real, maxTokens: int): (vs: seq<Violation>)
    ensures TemperatureOutOfRange in vs <==> !(0.0 <= temperature <= 1.0)
    ensures MaxTokensNotPositive in vs <==> maxTokens <= 0
    ensures forall v :: v in vs ==> v == TemperatureOutOfRange || v == MaxTokensNotPositive
  {
    Check(!(0.0 <= temperature <= 1.0), TemperatureOutOfRange) + Check(maxTokens <= 0, MaxTokensNotPositive)
  }

  /** `LLMConfig(...)`: the temperature must lie in `[0, 1]` and the token
      limit must be positive; the model name is free. */
  function NewLlmSettings(modelName: string := DefaultModel, temperature: real := DefaultTemperature,
                          maxTokens: int := DefaultMaxTokens)
    : (r: Result<LlmSettings, seq<Violation>>)
    ensures r.Ok? <==> 0.0 <= temperature <= 1.0 && maxTokens > 0
    ensures r.Ok? ==> r.value == LlmSettings(modelName, temperature, maxTokens)
    ensures r.Err? ==> (
      && r.error != []
      && (TemperatureOutOfRange in r.error <==> !(0.0 <= temperature <= 1.0))
      && (MaxTokensNotPositive in r.error <==> maxTokens <= 0))
  {
    var vs := LlmViolations(temperature, maxTokens);
    if vs == [] then Ok(LlmSettings(modelName, temperature, maxTokens)) else Err(vs)
  }

  /** `SummarizerConfig(...)`: the shared constraints, and a summary length
      that is either absent or positive. */
  function NewSummarizerConfig(modelName: string := DefaultModel, temperature: real := DefaultTemperature,
                               maxTokens: int := DefaultMaxTokens, maxSummaryLength: Option<int> := None)
    : (r: Result<SummarizerConfig, seq<Violation>>)
    ensures r.Ok? <==> (0.0 <= temperature <= 1.0 && maxTokens > 0
                        && (maxSummaryLength.None? || maxSummaryLength.value > 0))
    ensures r.Ok? ==> r.value == SummarizerConfig(LlmSettings(modelName, temperature, maxTokens), maxSummaryLength)
    ensures r.Err? ==>
      && (TemperatureOutOfRange in r.error <==> !(0.0 <= temperature <= 1.0))
      && (MaxTokensNotPositive in r.error <==> maxTokens <= 0)
      && (MaxSummaryLengthNotPositive in r.error <==> maxSummaryLength.Some? && maxSummaryLength.value <= 0)
  {
    var vs := LlmViolations(temperature, maxTokens)
      + Check(maxSummaryLength.Some? && maxSummaryLength.value <= 0, MaxSummaryLengthNotPositive);
    if vs == [] then Ok(SummarizerConfig(LlmSettings(modelName, temperature, maxTokens), maxSummaryLength))
    else Err(vs)
  }

  /** `TopicExtractorConfig(...)`: the shared constraints, a positive number of
      topics and a positive context limit. */
  function NewTopicExtractorConfig(modelName: string := DefaultModel, temperature: real := DefaultTemperature,
                                   maxTokens: int := DefaultMaxTokens, numTopics: int := DefaultNumTopics,
                                   maxContextChunks: int := DefaultMaxContextChunks)
    : (r: Result<TopicExtractorConfig, seq<Violation>>)
    ensures r.Ok? <==> 0.0 <= temperature <= 1.0 && maxTokens > 0 && numTopics > 0 && maxContextChunks > 0
    ensures r.Ok? ==> r.value == TopicExtractorConfig(LlmSettings(modelName, temperature, maxTokens), numTopics, maxContextChunks)
    ensures r.Err? ==>
      && (TemperatureOutOfRange in r.error <==> !(0.0 <= temperature <= 1.0))
      && (MaxTokensNotPositive in r.error <==> maxTokens <= 0)
      && (NumTopicsNotPositive in r.error <==> numTopics <= 0)
      && (MaxContextChunksNotPositive in r.error <==> maxContextChunks <= 0)
  {
    var vs := LlmViolations(temperature, maxTokens)
      + Check(numTopics <= 0, NumTopicsNotPositive)
      + Check(maxContextChunks <= 0, MaxContextChunksNotPositive);
    if vs == [] then Ok(TopicExtractorConfig(LlmSettings(modelName, temperature, maxTokens), numTopics, maxContextChunks))
    else Err(vs)
  }

  /** The defaults are accepted: "gpt-3.5-turbo", temperature 0.7, 500
      tokens, no summary limit, five topics, a thousand context chunks. */
  lemma DefaultsAccepted()
    ensures NewLlmSettings() == Ok(LlmSettings("gpt-3.5-turbo", 0.7, 500))
    ensures NewSummarizerConfig() == Ok(SummarizerConfig(LlmSettings("gpt-3.5-turbo", 0.7, 500), None))
    ensures NewTopicExtractorConfig() == Ok(TopicExtractorConfig(LlmSettings("gpt-3.5-turbo", 0.7, 500), 5, 1000))
  {
  }
}
