/** `RandomChunkTopicExtractor`: topic extraction from at most three chunks
    of the document, drawn at random when there are more. The draw is a
    nondeterministic choice; what follows the reply is `LlmTopics`. */
module RandomChunk {
  import opened Wrappers
  import opened PyStr
  import opened LlmTopics

  const ChunkSeparator: string := "\n\n"

  /** What `random.sample(chunks, 3)` may draw from a list of `n`: three
      distinct positions, in any order. */
  predicate IsSample(ps: seq<nat>, n: nat) {
    && |ps| == 3
    && (forall j :: 0 <= j < |ps| ==> ps[j] < n)
    && ps[0] != ps[1] && ps[0] != ps[2] && ps[1] != ps[2]
  }

  /** The chunks at the drawn positions, in the order drawn. */
  function Pick(chunks: seq<string>, ps: seq<nat>): (r: seq<string>)
    requires forall j :: 0 <= j < |ps| ==> ps[j] < |chunks|
    ensures |r| == |ps| && forall j :: 0 <= j < |ps| ==> r[j] == chunks[ps[j]]
  {
    seq(|ps|, j requires 0 <= j < |ps| => chunks[ps[j]])
  }

  /** `extract_topics` up to the prompt: rejects an empty list; with more
      than three chunks joins three drawn from distinct positions, otherwise
      joins them all in their order. */
  method ContextText(chunks: seq<string>) returns (r: Result<string, LlmError>)
    ensures r.Err? <==> chunks == []
    ensures r.Err? ==> r.error == NoChunks
    ensures 1 <= |chunks| <= 3 ==> r == Ok(Join(chunks, ChunkSeparator))
    ensures |chunks| > 3 ==> exists ps :: IsSample(ps, |chunks|) && r == Ok(Join(Pick(chunks, ps), ChunkSeparator))
  {
    if chunks == [] {
      return Err(NoChunks);
    }
    var selected: seq<string>;
    if |chunks| > 3 {
      assert IsSample([0, 1, 2], |chunks|);
      var ps: seq<nat> :| IsSample(ps, |chunks|);
      assert IsSample(ps, |chunks|);
      selected := Pick(chunks, ps);
    } else {
      selected := chunks;
    }
    r := Ok(Join(selected, ChunkSeparator));
  }

  /** A draw takes three chunks out of the list without reusing one: as a
      multiset the drawn chunks lie within the input. */
  lemma {:induction false} SampleWithin(chunks: seq<string>, ps: seq<nat>)
    requires IsSample(ps, |chunks|)
    ensures multiset(Pick(chunks, ps)) <= multiset(chunks)
  {
    var a, b, c := ps[0], ps[1], ps[2];
    assert Pick(chunks, ps) == [chunks[a], chunks[b], chunks[c]];
    if a < b < c { OrderedWithin(chunks, a, b, c); }
    else if a < c < b { OrderedWithin(chunks, a, c, b); }
    else if b < a < c { OrderedWithin(chunks, b, a, c); }
    else if b < c < a { OrderedWithin(chunks, b, c, a); }
    else if c < a < b { OrderedWithin(chunks, c, a, b); }
    else { OrderedWithin(chunks, c, b, a); }
  }

  lemma OrderedWithin(chunks: seq<string>, a: nat, b: nat, c: nat)
    requires a < b < c < |chunks|
    ensures multiset{chunks[a], chunks[b], chunks[c]} <= multiset(chunks)
  {
    assert chunks == chunks[..a] + [chunks[a]] + chunks[a + 1..b] + [chunks[b]]
                     + chunks[b + 1..c] + [chunks[c]] + chunks[c + 1..];
  }
}
