/** `RetrievalConfig`: the settings every retrieval service is built with. */
module RetrievalBase {
  import opened Wrappers

  /** The settings as stored; only `NewRetrievalConfig` builds accepted ones. */
  datatype RetrievalConfig = RetrievalConfig(similarityThreshold: real, maxResults: int)

  /** The two ways construction is rejected, checked in this order. */
  datatype ConfigError =
    | ThresholdOutOfRange  // "similarity_threshold must be between 0 and 1"
    | MaxResultsNotPositive  // "max_results must be greater than 0"

  const DefaultThreshold: real := 0.7
  const DefaultMaxResults: int := 5

  predicate ValidRetrievalConfig(c: RetrievalConfig) {
    0.0 <= c.similarityThreshold <= 1.0 && c.maxResults > 0
  }

  /** Construction with `__post_init__`'s checks: the threshold must lie in
      `[0, 1]`, then the result limit must be positive; accepted values are
      stored as given. */
  function NewRetrievalConfig(threshold: real := DefaultThreshold, maxResults: int := DefaultMaxResults)
    : (r: Result<RetrievalConfig, ConfigError>)
    ensures r.Ok? <==> 0.0 <= threshold <= 1.0 && maxResults > 0
    ensures r.Ok? ==> r.value == RetrievalConfig(threshold, maxResults) && ValidRetrievalConfig(r.value)
    ensures !(0.0 <= threshold <= 1.0) ==> r == Err(ThresholdOutOfRange)
    ensures 0.0 <= threshold <= 1.0 && maxResults <= 0 ==> r == Err(MaxResultsNotPositive)
  {
    if !(0.0 <= threshold <= 1.0) then Err(ThresholdOutOfRange)
    else if maxResults <= 0 then Err(MaxResultsNotPositive)
    else Ok(RetrievalConfig(threshold, maxResults))
  }

  /** The defaults are accepted: threshold 0.7, five results. */
  lemma DefaultConfigAccepted()
    ensures NewRetrievalConfig() == Ok(RetrievalConfig(0.7, 5))
  {
  }
}
