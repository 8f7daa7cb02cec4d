/** `CosineRetrieval`: an index of texts with one embedding each, and the
    walk that returns the best-scoring texts for a query.

    The similarity of an embedding to the query (cosine similarity, computed
    with numpy in the source) is a parameter `score` here; only the ranking and
    selection built on top of it are modelled. */
module CosineRetrieval {
  import opened Wrappers
  import opened RetrievalBase

  type Embedding = seq<real>

  /** The failures of `index` and `find_relevant_chunks`. */
  datatype RetrievalError =
    | CountMismatch  // "Number of texts and embeddings must match"
    | NoTextsProvided  // "No texts provided for indexing"
    | NoIndexedTexts  // "No indexed texts available"
    | DimensionMismatch  // numpy cannot multiply the matrix by the query

  /** Every indexed vector has the query's dimension. */
  predicate SameDimension(embeddings: seq<Embedding>, query: Embedding) {
    forall i :: 0 <= i < |embeddings| ==> |embeddings[i]| == |query|
  }

  function Scores(embeddings: seq<Embedding>, query: Embedding, score: (Embedding, Embedding) -> real): (s: seq<real>)
    ensures |s| == |embeddings|
    ensures forall i :: 0 <= i < |s| ==> s[i] == score(embeddings[i], query)
  {
    seq(|embeddings|, i requires 0 <= i < |embeddings| => score(embeddings[i], query))
  }

  // ---------------------------------------------------------------------
  // Ranking: `argsort(similarities)[::-1]`

  /** Positions in non-increasing order of score. */
  predicate Descending(order: seq<nat>, scores: seq<real>) {
    && (forall j :: 0 <= j < |order| ==> order[j] < |scores|)
    && (forall a, b :: 0 <= a < b < |order| ==> scores[order[a]] >= scores[order[b]])
  }

  /** What `argsort(similarities)[::-1]` promises: every position exactly
      once, in non-increasing order of score. */
  predicate IsRanking(order: seq<nat>, scores: seq<real>) {
    && Descending(order, scores)
    && |order| == |scores|
    && (forall i :: 0 <= i < |scores| ==> i in order)
    && (forall a, b :: 0 <= a < b < |order| ==> order[a] != order[b])
  }

  /** How many leading positions of `order` score strictly above `s`. */
  function Above(order: seq<nat>, scores: seq<real>, s: real): (p: nat)
    requires forall j :: 0 <= j < |order| ==> order[j] < |scores|
    ensures p <= |order|
    ensures forall j :: 0 <= j < p ==> scores[order[j]] > s
    ensures p < |order| ==> scores[order[p]] <= s
  {
    if order == [] || scores[order[0]] <= s then 0
    else 1 + Above(order[1..], scores, s)
  }

  /** Insert position `i` into an order ahead of the first position whose
      score is not larger. */
  function Insert(i: nat, order: seq<nat>, scores: seq<real>): (r: seq<nat>)
    requires i < |scores|
    requires forall j :: 0 <= j < |order| ==> order[j] < |scores|
    ensures multiset(r) == multiset(order) + multiset{i}
  {
    var p := Above(order, scores, scores[i]);
    assert order == order[..p] + order[p..];
    order[..p] + [i] + order[p..]
  }

  /** Where the elements of `order` land once `i` is spliced in at `p`. */
  lemma SpliceIndex(order: seq<nat>, p: nat, i: nat)
    requires p <= |order|
    ensures var r := order[..p] + [i] + order[p..];
      && |r| == |order| + 1 && r[p] == i
      && (forall j :: 0 <= j < p ==> r[j] == order[j])
      && (forall j :: p < j < |r| ==> r[j] == order[j - 1])
  {
  }

  lemma InsertDescending(i: nat, order: seq<nat>, scores: seq<real>)
    requires i < |scores| && Descending(order, scores)
    ensures Descending(Insert(i, order, scores), scores)
  {
    var p := Above(order, scores, scores[i]);
    var r := Insert(i, order, scores);
    assert r == order[..p] + [i] + order[p..];
    SpliceIndex(order, p, i);
    forall a, b | 0 <= a < b < |r| ensures scores[r[a]] >= scores[r[b]] {
      if a == p && p < b - 1 {
        assert scores[order[p]] >= scores[order[b - 1]];
      }
    }
  }

  function Range(k: nat): (r: seq<nat>)
    ensures |r| == k
    ensures forall j :: 0 <= j < k ==> r[j] == j
  {
    seq(k, j requires 0 <= j => j)
  }

  /** The ranking of the first `k` positions. numpy's `argsort` is not
      stable, so the source leaves the order among equal scores open; this
      ranking places a later position ahead of an earlier one with the same
      score. */
  function RankFirst(scores: seq<real>, k: nat): (order: seq<nat>)
    requires k <= |scores|
    ensures Descending(order, scores)
    ensures multiset(order) == multiset(Range(k))
  {
    if k == 0 then []
    else
      var prev := RankFirst(scores, k - 1);
      assert Range(k) == Range(k - 1) + [k - 1];
      InsertDescending(k - 1, prev, scores);
      Insert(k - 1, prev, scores)
  }

  function Ranking(scores: seq<real>): (order: seq<nat>)
  {
    RankFirst(scores, |scores|)
  }

  /** The ranking lists every position exactly once, best first. */
  lemma RankingIsRanking(scores: seq<real>)
    ensures IsRanking(Ranking(scores), scores)
  {
    var order := Ranking(scores);
    var n := |scores|;
    assert |order| == |multiset(order)| == |multiset(Range(n))| == n;
    forall i | 0 <= i < n ensures i in order {
      assert Range(n)[i] == i;
      assert i in multiset(Range(n));
    }
    forall a, b | 0 <= a < b < n ensures order[a] != order[b] {
      if order[a] == order[b] {
        TwiceInSeq(order, a, b);
        OnceInRange(n, order[a]);
        assert false;
      }
    }
  }

  lemma {:induction false} TwiceInSeq(s: seq<nat>, a: int, b: int)
    requires 0 <= a < b < |s| && s[a] == s[b]
    ensures multiset(s)[s[a]] >= 2
  {
    assert s == s[..b] + [s[b]] + s[b + 1..];
    assert s[a] in s[..b];
    assert multiset(s) == multiset(s[..b]) + multiset{s[b]} + multiset(s[b + 1..]);
  }

  lemma {:induction false} OnceInRange(k: nat, x: nat)
    ensures multiset(Range(k))[x] <= 1
  {
    if k > 0 {
      assert Range(k) == Range(k - 1) + [k - 1];
      OnceInRange(k - 1, x);
      if x == k - 1 {
        assert x !in Range(k - 1);
      }
    }
  }

  // ---------------------------------------------------------------------
  // Selection: the walk with its two breaks

  /** How many leading positions of `order` score at least `threshold`. */
  function Lead(order: seq<nat>, scores: seq<real>, threshold: real): (n: nat)
    requires forall j :: 0 <= j < |order| ==> order[j] < |scores|
    ensures n <= |order|
    ensures forall j :: 0 <= j < n ==> scores[order[j]] >= threshold
    ensures n < |order| ==> scores[order[n]] < threshold
  {
    if order == [] || scores[order[0]] < threshold then 0
    else 1 + Lead(order[1..], scores, threshold)
  }

  /** `n` cut to at most `limit` (nothing for a non-positive limit). */
  function AtMost(n: nat, limit: int): (m: nat)
    ensures m <= n && (m <= limit || m == 0)
    ensures m == n || m == limit || (limit < 0 && m == 0)
  {
    if n <= limit then n else if limit < 0 then 0 else limit
  }

  /** The positions the walk takes from a ranking: its leading run that
      meets the threshold, cut to `max_results` entries. */
  function Select(order: seq<nat>, scores: seq<real>, config: RetrievalConfig): (ps: seq<nat>)
    requires forall j :: 0 <= j < |order| ==> order[j] < |scores|
  {
    order[..AtMost(Lead(order, scores, config.similarityThreshold), config.maxResults)]
  }

  /** Each position paired with its text and its score. */
  function Pairs(texts: seq<string>, scores: seq<real>, ps: seq<nat>): (r: seq<(string, real)>)
    requires |texts| == |scores|
    requires forall j :: 0 <= j < |ps| ==> ps[j] < |texts|
    ensures |r| == |ps|
    ensures forall j :: 0 <= j < |ps| ==> r[j] == (texts[ps[j]], scores[ps[j]])
  {
    seq(|ps|, j requires 0 <= j < |ps| => (texts[ps[j]], scores[ps[j]]))
  }

  /** The result of `find_relevant_chunks` on a non-empty index whose vectors
      have the query's dimension. */
  function Relevant(texts: seq<string>, scores: seq<real>, config: RetrievalConfig): (r: seq<(string, real)>)
    requires |texts| == |scores|
  {
    RankingIsRanking(scores);
    Pairs(texts, scores, Select(Ranking(scores), scores, config))
  }

  /** The full outcome of `find_relevant_chunks` for a corpus. */
  function FindOutcome(texts: seq<string>, embeddings: seq<Embedding>, query: Embedding,
                       score: (Embedding, Embedding) -> real, config: RetrievalConfig)
    : (r: Result<seq<(string, real)>, RetrievalError>)
    requires |texts| == |embeddings|
  {
    if texts == [] || embeddings == [] then Err(NoIndexedTexts)
    else if !SameDimension(embeddings, query) then Err(DimensionMismatch)
    else Ok(Relevant(texts, Scores(embeddings, query, score), config))
  }

  /** From any ranking the walk takes distinct positions, all meeting the
      threshold, at most `max_results` of them, with non-increasing scores. */
  lemma SelectShape(order: seq<nat>, scores: seq<real>, config: RetrievalConfig)
    requires IsRanking(order, scores)
    ensures var ps := Select(order, scores, config);
      && (|ps| <= config.maxResults || |ps| == 0)
      && (forall j :: 0 <= j < |ps| ==> ps[j] < |scores| && scores[ps[j]] >= config.similarityThreshold)
      && (forall a, b :: 0 <= a < b < |ps| ==> scores[ps[a]] >= scores[ps[b]] && ps[a] != ps[b])
  {
  }

  /** Top-k: a position the walk leaves out either misses the threshold or,
      when the limit cut the walk short, scores no higher than the last one
      taken. */
  lemma SelectIsBest(order: seq<nat>, scores: seq<real>, config: RetrievalConfig, i: nat)
    requires IsRanking(order, scores) && i < |scores| && config.maxResults > 0
    requires i !in Select(order, scores, config)
    ensures var ps := Select(order, scores, config);
      scores[i] < config.similarityThreshold || (|ps| > 0 && scores[i] <= scores[ps[|ps| - 1]])
  {
    var ps := Select(order, scores, config);
    var n := Lead(order, scores, config.similarityThreshold);
    assert i in order;
    var p :| 0 <= p < |order| && order[p] == i;
    assert p >= |ps|;
    if scores[i] >= config.similarityThreshold {
      assert p < n;
      assert |ps| == config.maxResults;
      assert ps[|ps| - 1] == order[|ps| - 1];
    }
  }

  /** The walk takes `min(max_results, #positions meeting the threshold)`
      positions, whichever ranking it walks. */
  lemma SelectCount(order: seq<nat>, scores: seq<real>, config: RetrievalConfig)
    requires IsRanking(order, scores)
    ensures var above := |set i | 0 <= i < |scores| && scores[i] >= config.similarityThreshold|;
      |Select(order, scores, config)| == AtMost(above, config.maxResults)
  {
    var t := config.similarityThreshold;
    var n := Lead(order, scores, t);
    var above := set i | 0 <= i < |scores| && scores[i] >= t;
    var lead := set j | 0 <= j < n :: order[j];
    assert above == lead by {
      forall i | i in above ensures i in lead {
        assert i in order;
        var p :| 0 <= p < |order| && order[p] == i;
        assert p < n;
      }
    }
    InjectiveImage(order, n);
  }

  /** The first `n` entries of a sequence without repeats form a set of `n`. */
  lemma {:induction false} InjectiveImage(order: seq<nat>, n: nat)
    requires n <= |order|
    requires forall a, b :: 0 <= a < b < |order| ==> order[a] != order[b]
    ensures |set j | 0 <= j < n :: order[j]| == n
  {
    if n > 0 {
      InjectiveImage(order, n - 1);
      var smaller := set j | 0 <= j < n - 1 :: order[j];
      assert (set j | 0 <= j < n :: order[j]) == smaller + {order[n - 1]};
      assert order[n - 1] !in smaller;
    }
  }

  /** Raising the threshold never adds a position: the stricter selection is
      a prefix of the looser one. */
  lemma SelectMonotone(order: seq<nat>, scores: seq<real>, config: RetrievalConfig, stricter: real)
    requires forall j :: 0 <= j < |order| ==> order[j] < |scores|
    requires stricter >= config.similarityThreshold
    ensures var loose := Select(order, scores, config);
      var strict := Select(order, scores, config.(similarityThreshold := stricter));
      |strict| <= |loose| && strict == loose[..|strict|]
  {
    LeadMonotone(order, scores, config.similarityThreshold, stricter);
  }

  lemma {:induction false} LeadMonotone(order: seq<nat>, scores: seq<real>, t1: real, t2: real)
    requires forall j :: 0 <= j < |order| ==> order[j] < |scores|
    requires t1 <= t2
    ensures Lead(order, scores, t2) <= Lead(order, scores, t1)
  {
    if order != [] && scores[order[0]] >= t2 {
      LeadMonotone(order[1..], scores, t1, t2);
    }
  }

  // ---------------------------------------------------------------------
  // The service

  class CosineRetrieval {
    var config: RetrievalConfig
    var texts: seq<string>
    var embeddings: seq<Embedding>

    /** Only `index` assigns the corpus, and it keeps the lists the same length. */
    predicate Valid()
      reads this
    {
      |texts| == |embeddings|
    }

    /** `__init__`: keeps the configuration, with an empty corpus. */
    constructor(config: RetrievalConfig)
      ensures this.config == config && texts == [] && embeddings == []
      ensures Valid()
    {
      this.config := config;
      texts := [];
      embeddings := [];
    }

    /** `index`: rejects lists of different lengths, then an empty list;
        on success replaces the corpus wholesale. A rejected call leaves the
        previous corpus in place. */
    method Index(newTexts: seq<string>, newEmbeddings: seq<Embedding>) returns (r: Result<(), RetrievalError>)
      requires Valid()
      modifies this
      ensures Valid() && config == old(config)
      ensures |newTexts| != |newEmbeddings| ==> r == Err(CountMismatch)
      ensures |newTexts| == |newEmbeddings| && newTexts == [] ==> r == Err(NoTextsProvided)
      ensures r.Ok? <==> |newTexts| == |newEmbeddings| && newTexts != []
      ensures r.Ok? ==> texts == newTexts && embeddings == newEmbeddings
      ensures r.Err? ==> texts == old(texts) && embeddings == old(embeddings)
    {
      if |newTexts| != |newEmbeddings| {
        return Err(CountMismatch);
      }
      if newTexts == [] {
        return Err(NoTextsProvided);
      }
      texts := newTexts;
      embeddings := newEmbeddings;
      r := Ok(());
    }

    /** `find_relevant_chunks`: fails on an empty index and on a query of the
        wrong dimension; otherwise walks the ranking and stops at the first
        score under the threshold or once `max_results` texts are taken. */
    method FindRelevantChunks(query: Embedding, score: (Embedding, Embedding) -> real)
      returns (r: Result<seq<(string, real)>, RetrievalError>)
      requires Valid()
      ensures r == FindOutcome(texts, embeddings, query, score, config)
    {
      if texts == [] || embeddings == [] {
        return Err(NoIndexedTexts);
      }
      if !SameDimension(embeddings, query) {
        return Err(DimensionMismatch);
      }
      var similarities := Scores(embeddings, query, score);
      var indices := Ranking(similarities);
      RankingIsRanking(similarities);
      var results: seq<(string, real)> := [];
      ghost var n := Lead(indices, similarities, config.similarityThreshold);
      var k := 0;
      while k < |indices|
        invariant k == |results| && k <= n
        invariant k <= config.maxResults || k == 0
        invariant forall j :: 0 <= j < k ==> results[j] == (texts[indices[j]], similarities[indices[j]])
        decreases |indices| - k
      {
        var idx := indices[k];
        var similarity := similarities[idx];
        if similarity < config.similarityThreshold {
          break;
        }
        if |results| >= config.maxResults {
          break;
        }
        results := results + [(texts[idx], similarity)];
        k := k + 1;
      }
      assert k == AtMost(n, config.maxResults);
      assert results == Pairs(texts, similarities, Select(indices, similarities, config));
      r := Ok(results);
    }
  }
}
