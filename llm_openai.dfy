/** The string work around the OpenAI chat calls of `OpenAILLMService`,
    `OpenAISummarizer` and `OpenAITopicExtractor`: the empty-input guards,
    the summary prompt, the clean-up of a numbered list of concepts, the
    service's fence removal and the extractor's choice of context chunks.
    The reply of a call is a parameter `content`; decoding it is the
    parameter `decode` of `LlmTopics`. */
module LlmOpenAi {
  import opened Wrappers
  import opened PyStr
  import opened LlmConfig
  import opened LlmTopics

  // ---------------------------------------------------------------------
  // Summaries

  const SummaryHeader: string := "Please summarize the following text:\n\n"
  const LimitIntro: string := "Keep the summary under "
  const LimitOutro: string := " words.\n\n"

  /** Python's truth test on the optional word limit: `None` and `0` are false. */
  predicate LimitSet(maxLength: Option<int>) {
    maxLength.Some? && maxLength.value != 0
  }

  /** The summary prompt: the fixed header, the limit sentence only when a
      limit is set, then the text itself. */
  function SummaryPrompt(text: string, maxLength: Option<int>): (p: string)
    ensures StartsWith(p, SummaryHeader) && EndsWith(p, text)
    ensures |p| == |SummaryHeader| + |text| <==> !LimitSet(maxLength)
  {
    SummaryHeader
      + (if LimitSet(maxLength) then LimitIntro + IntToString(maxLength.value) + LimitOutro else [])
      + text
  }

  /** A positive limit can be read back, in decimal, from where the limit
      sentence puts it. */
  lemma SummaryLimitReadsBack(text: string, n: nat)
    requires n > 0
    ensures var p := SummaryPrompt(text, Some(n));
      var at := |SummaryHeader| + |LimitIntro|;
      var digits := NatToString(n);
      && at + |digits| <= |p|
      && p[at..at + |digits|] == digits
      && ParseNat(p[at..at + |digits|]) == n
  {
    var digits := NatToString(n);
    var p := SummaryPrompt(text, Some(n));
    assert p == SummaryHeader + LimitIntro + digits + LimitOutro + text;
    var at := |SummaryHeader| + |LimitIntro|;
    assert p[at..at + |digits|] == digits;
    NatToStringRoundTrip(n);
  }

  /** `generate_summary`: rejects empty text, otherwise prompts with the
      caller's limit. */
  function GenerateSummaryPrompt(text: string, maxLength: Option<int>): (r: Result<string, LlmError>)
    ensures r.Err? <==> text == []
    ensures r.Err? ==> r.error == NoTextForSummary
    ensures r.Ok? ==> r.value == SummaryPrompt(text, maxLength)
  {
    if text == [] then Err(NoTextForSummary) else Ok(SummaryPrompt(text, maxLength))
  }

  /** `OpenAISummarizer.summarize`: no guard; the limit comes from the
      configuration, which only accepts a positive limit or none. */
  function SummarizerPrompt(text: string, config: SummarizerConfig): (p: string)
    ensures config.maxSummaryLength.None? ==> p == SummaryHeader + text
  {
    SummaryPrompt(text, config.maxSummaryLength)
  }

  // ---------------------------------------------------------------------
  // Key concepts

  /** `s.split(sep, 1)[1]`: what follows the first `sep`, or `None` when the
      split yields a single part and the index fails. */
  function AfterFirst(s: string, sep: string): (r: Option<string>)
    ensures r.None? <==> !Contains(s, sep)
    ensures r.Some? ==> |r.value| + |sep| <= |s| && EndsWith(s, r.value)
    ensures r.Some? ==> exists i :: FirstOccurrence(s, sep, i) && r.value == s[i + |sep|..]
  {
    var i := FindFrom(s, sep, 0);
    if i == -1 then None
    else assert FirstOccurrence(s, sep, i); Some(s[i + |sep|..])
  }

  /** One kept line of the reply: tested for ". " as it stands, but split
      after stripping. */
  function CleanLine(line: string): (r: Result<string, LlmError>)
    ensures r.Err? ==> r.error == NoSecondPart && Contains(line, ". ")
    ensures !Contains(line, ". ") ==> r == Ok(Strip(line))
  {
    if Contains(line, ". ") then
      match AfterFirst(Strip(line), ". ")
      case None => Err(NoSecondPart)
      case Some(rest) => Ok(rest)
    else Ok(Strip(line))
  }

  /** The lines that survive `if concept.strip()`, in order. */
  function NonBlank(lines: seq<string>): (r: seq<string>)
    ensures |r| <= |lines|
    ensures forall k :: 0 <= k < |r| ==> !IsBlank(r[k])
    ensures forall k :: 0 <= k < |lines| && !IsBlank(lines[k]) ==> lines[k] in r
  {
    if lines == [] then []
    else if IsBlank(lines[0]) then NonBlank(lines[1..])
    else [lines[0]] + NonBlank(lines[1..])
  }

  /** `idx` lists, in increasing order, positions of `lines` whose lines make
      up `r`, and every non-blank line's position is among them. */
  predicate KeptAt(lines: seq<string>, r: seq<string>, idx: seq<int>) {
    && |idx| == |r|
    && (forall k :: 0 <= k < |idx| ==> 0 <= idx[k] < |lines| && r[k] == lines[idx[k]])
    && (forall a, b :: 0 <= a < b < |idx| ==> idx[a] < idx[b])
    && (forall j :: 0 <= j < |lines| && !IsBlank(lines[j]) ==> j in idx)
  }

  /** Every position moved one further. */
  function Shifted(idx: seq<int>): (r: seq<int>)
    ensures |r| == |idx| && forall k :: 0 <= k < |idx| ==> r[k] == idx[k] + 1
  {
    seq(|idx|, k requires 0 <= k < |idx| => idx[k] + 1)
  }

  /** `NonBlank` keeps the non-blank lines in their order, each as often as
      it occurs: its result is the lines at increasing positions that cover
      every non-blank line. */
  lemma {:induction false} NonBlankInOrder(lines: seq<string>)
    ensures exists idx :: KeptAt(lines, NonBlank(lines), idx)
  {
    if lines == [] {
      assert KeptAt(lines, NonBlank(lines), []);
    } else {
      var tail := lines[1..];
      NonBlankInOrder(tail);
      var t :| KeptAt(tail, NonBlank(tail), t);
      if IsBlank(lines[0]) {
        assert NonBlank(lines) == NonBlank(tail);
        KeptSkip(lines, NonBlank(tail), t);
      } else {
        assert NonBlank(lines) == [lines[0]] + NonBlank(tail);
        KeptTake(lines, NonBlank(tail), t);
      }
    }
  }

  /** A blank first line adds nothing and moves every kept position on. */
  lemma KeptSkip(lines: seq<string>, rt: seq<string>, t: seq<int>)
    requires lines != [] && IsBlank(lines[0]) && KeptAt(lines[1..], rt, t)
    ensures KeptAt(lines, rt, Shifted(t))
  {
    var idx := Shifted(t);
    forall k | 0 <= k < |idx| ensures 0 <= idx[k] < |lines| && rt[k] == lines[idx[k]] {
      assert lines[1..][t[k]] == lines[t[k] + 1];
    }
    forall j | 0 <= j < |lines| && !IsBlank(lines[j]) ensures j in idx {
      assert lines[1..][j - 1] == lines[j];
      var m :| 0 <= m < |t| && t[m] == j - 1;
      assert idx[m] == j;
    }
  }

  /** A non-blank first line is kept at position 0, before the others. */
  lemma KeptTake(lines: seq<string>, rt: seq<string>, t: seq<int>)
    requires lines != [] && !IsBlank(lines[0]) && KeptAt(lines[1..], rt, t)
    ensures KeptAt(lines, [lines[0]] + rt, [0] + Shifted(t))
  {
    var idx, r := [0] + Shifted(t), [lines[0]] + rt;
    forall k | 0 <= k < |idx| ensures 0 <= idx[k] < |lines| && r[k] == lines[idx[k]] {
      if k > 0 {
        assert idx[k] == t[k - 1] + 1 && r[k] == rt[k - 1];
        assert lines[1..][t[k - 1]] == lines[t[k - 1] + 1];
      }
    }
    forall a, b | 0 <= a < b < |idx| ensures idx[a] < idx[b] {
      if a > 0 {
        assert idx[a] == t[a - 1] + 1 && idx[b] == t[b - 1] + 1;
      }
    }
    forall j | 0 <= j < |lines| && !IsBlank(lines[j]) ensures j in idx {
      if j == 0 {
        assert idx[0] == 0;
      } else {
        assert lines[1..][j - 1] == lines[j];
        var m :| 0 <= m < |t| && t[m] == j - 1;
        assert idx[m + 1] == j;
      }
    }
  }

  /** The comprehension's expression applied to the kept lines: one
      concept per line, in order; it fails as soon as one line fails. */
  function CleanEach(kept: seq<string>): (r: Result<seq<string>, LlmError>)
    ensures r.Ok? <==> forall k :: 0 <= k < |kept| ==> CleanLine(kept[k]).Ok?
    ensures r.Ok? ==> (&& |r.value| == |kept|
                       && forall k :: 0 <= k < |kept| ==> r.value[k] == CleanLine(kept[k]).value)
  {
    if kept == [] then Ok([])
    else
      var head :- CleanLine(kept[0]);
      var tail :- CleanEach(kept[1..]);
      Ok([head] + tail)
  }

  /** The clean-up of `identify_key_concepts`' reply, split on newlines. */
  function CleanConcepts(content: string): (r: Result<seq<string>, LlmError>)
  {
    CleanEach(NonBlank(SplitOn(content, '\n')))
  }

  /** `identify_key_concepts`: rejects empty text, otherwise cleans up the
      reply with the corrected clean-up, which returns what the code returns
      wherever the code does not fail (see `CleanLineFails` for where it
      does). */
  function IdentifyKeyConcepts(text: string, content: string): (r: Result<seq<string>, LlmError>)
    ensures r.Err? <==> text == []
    ensures r.Err? ==> r.error == NoTextForConcepts
    ensures r.Ok? && CleanConcepts(content).Ok? ==> r == CleanConcepts(content)
    ensures r.Ok? ==> |r.value| == |NonBlank(SplitOn(content, '\n'))|
  {
    if text == [] then Err(NoTextForConcepts)
    else
      if CleanConcepts(content).Ok? then CleanConceptsAgrees(content); Ok(CleanConceptsIntended(content))
      else Ok(CleanConceptsIntended(content))
  }

  /** A piece of a string contains only what the string contains. */
  lemma ContainsWithin(s: string, a: nat, b: nat, pat: string)
    requires a <= b <= |s|
    requires Contains(s[a..b], pat)
    ensures Contains(s, pat)
  {
    var i :| OccursAt(s[a..b], pat, i);
    forall k | 0 <= k < |pat| ensures s[a + i + k] == pat[k] {
      assert s[a..b][i..i + |pat|][k] == pat[k];
    }
    assert s[a + i..a + i + |pat|] == pat;
    assert OccursAt(s, pat, a + i);
  }

  /** The stripped line ends in '.', the line goes on with a space right
      after it, and the stripped line holds no ". " of its own: the only
      ". " of the line is cut in two by the strip. */
  predicate CutByStrip(line: string) {
    var s := Strip(line);
    && !Contains(s, ". ")
    && s != [] && s[|s| - 1] == '.'
    && StripEnd(line) < |line| && line[StripEnd(line)] == ' '
  }

  /** A line fails exactly when the strip cuts its only ". ". */
  lemma CleanLineFails(line: string)
    ensures CleanLine(line).Err? <==> CutByStrip(line)
  {
    var s := Strip(line);
    assert CleanLine(line).Err? <==> Contains(line, ". ") && !Contains(s, ". ");
    if Contains(line, ". ") && !Contains(s, ". ") {
      CleanLineFailsAtEnd(line);
    }
    if CutByStrip(line) {
      var b := StripEnd(line);
      assert line[b - 1] == s[|s| - 1];
      assert line[b - 1..b + 1] == ". ";
      assert OccursAt(line, ". ", b - 1);
    }
  }

  /** Where an occurrence of ". " can sit when the span `[a, b)` of the line,
      outside which all is whitespace, holds none: it straddles `b`. */
  lemma StraddlesEnd(line: string, a: nat, b: nat, i: nat)
    requires a <= b <= |line|
    requires forall k :: 0 <= k < |line| && !(a <= k < b) ==> IsSpace(line[k])
    requires OccursAt(line, ". ", i) && !Contains(line[a..b], ". ")
    ensures a <= i && i + 1 == b && b < |line| && line[i] == '.' && line[b] == ' '
  {
    assert line[i..i + 2][0] == line[i] && line[i..i + 2][1] == line[i + 1];
    assert !IsSpace(line[i]);
    assert a <= i < b;
    assert !OccursAt(line[a..b], ". ", i - a);
  }

  lemma CleanLineFailsAtEnd(line: string)
    requires Contains(line, ". ") && !Contains(Strip(line), ". ")
    ensures CutByStrip(line)
  {
    var s := Strip(line);
    var a, b := StripStart(line), StripEnd(line);
    var i :| OccursAt(line, ". ", i);
    StraddlesEnd(line, a, b, i);
    assert s[|s| - 1] == line[b - 1];
  }

  /** The clean-up the code evidently means: test the stripped line for
      ". ", and keep what follows its first occurrence. */
  function CleanLineIntended(line: string): (r: string)
    ensures !Contains(Strip(line), ". ") ==> r == Strip(line)
    ensures Contains(Strip(line), ". ") ==> |r| + 2 <= |Strip(line)| && EndsWith(Strip(line), r)
    ensures Contains(Strip(line), ". ") ==> exists i :: FirstOccurrence(Strip(line), ". ", i) && r == Strip(line)[i + 2..]
  {
    var s := Strip(line);
    match AfterFirst(s, ". ")
    case None => s
    case Some(rest) => rest
  }

  /** The intended clean-up agrees with the code wherever the code does not
      fail. */
  lemma CleanLineAgrees(line: string)
    requires CleanLine(line).Ok?
    ensures CleanLine(line).value == CleanLineIntended(line)
  {
    var s := Strip(line);
    if !Contains(line, ". ") && Contains(s, ". ") {
      ContainsWithin(line, StripStart(line), StripEnd(line), ". ");
    }
  }

  /** The intended clean-up of a whole reply: it never fails. */
  function CleanConceptsIntended(content: string): (r: seq<string>)
    ensures var kept := NonBlank(SplitOn(content, '\n'));
      |r| == |kept| && forall k :: 0 <= k < |kept| ==> r[k] == CleanLineIntended(kept[k])
  {
    var kept := NonBlank(SplitOn(content, '\n'));
    seq(|kept|, k requires 0 <= k < |kept| => CleanLineIntended(kept[k]))
  }

  /** Wherever the code's clean-up succeeds it returns what the intended
      one returns. */
  lemma CleanConceptsAgrees(content: string)
    requires CleanConcepts(content).Ok?
    ensures CleanConcepts(content).value == CleanConceptsIntended(content)
  {
    var kept := NonBlank(SplitOn(content, '\n'));
    forall k | 0 <= k < |kept| ensures CleanLine(kept[k]).value == CleanLineIntended(kept[k]) {
      CleanLineAgrees(kept[k]);
    }
  }

  /** "Done. " is such a line: the code fails on it, the intended clean-up
      keeps "Done.". */
  lemma DoneLineFails()
    ensures CleanLine("Done. ").Err?
    ensures CleanLineIntended("Done. ") == "Done."
  {
    var line := "Done. ";
    assert LeadingSpaces(line) == 0;
    assert TrailingSpaces(line[..5]) == 0;
    assert TrailingSpaces(line) == 1;
    assert Strip(line) == "Done.";
    assert !Contains("Done.", ". ");
    CleanLineFails(line);
  }

  // ---------------------------------------------------------------------
  // Topics from the service

  /** `split("```json")[1]`: the text between the first "```json" and the
      next one (or the end); the whole text when there is none. */
  function AfterJsonFence(s: string): (r: string)
    ensures |r| <= |s|
    ensures !Contains(s, JsonFence) ==> r == s
  {
    var i := FindFrom(s, JsonFence, 0);
    if i == -1 then s
    else
      var rest := s[i + 7..];
      var j := FindFrom(rest, JsonFence, 0);
      if j == -1 then rest else rest[..j]
  }

  /** `split("```")[0]`: the text before the first "```". */
  function BeforeFence(s: string): (r: string)
    ensures r <= s && !Contains(r, Fence)
    ensures !Contains(s, Fence) ==> r == s
  {
    var j := FindFrom(s, Fence, 0);
    if j == -1 then s
    else
      assert forall k :: OccursAt(s[..j], Fence, k) ==> OccursAt(s, Fence, k) && k < j by {
        forall k | OccursAt(s[..j], Fence, k) ensures OccursAt(s, Fence, k) && k < j {
          assert s[..j][k..k + 3] == s[k..k + 3];
        }
      }
      s[..j]
  }

  /** The service's fence removal: keep the piece after the first "```json",
      then the piece before the first "```", then strip. */
  function ServiceFence(content: string): (r: string)
    ensures |r| <= |content|
  {
    Strip(BeforeFence(AfterJsonFence(content)))
  }

  /** A pattern whose first character does not occur before position `i`,
      and which occurs at `i`, is first found there. */
  lemma FirstFoundAt(s: string, pat: string, i: nat)
    requires pat != [] && OccursAt(s, pat, i)
    requires forall k :: 0 <= k < i ==> s[k] != pat[0]
    ensures FindFrom(s, pat, 0) == i
  {
    var r := FindFrom(s, pat, 0);
    assert OccursAt(s, pat, i);
    assert r != -1 ==> s[r] == s[r..r + |pat|][0];
  }

  /** A pattern whose first character does not occur is not found. */
  lemma NotFound(s: string, pat: string)
    requires pat != [] && pat[0] !in s
    ensures FindFrom(s, pat, 0) == -1
  {
    var r := FindFrom(s, pat, 0);
  }

  /** A fenced reply, with prose before the fence and after it, gives back
      its stripped body, as long as no backquote appears outside the
      fences. */
  lemma ServiceFenceUnwraps(pre: string, body: string, post: string)
    requires '`' !in pre && '`' !in body && '`' !in post
    ensures ServiceFence(pre + JsonFence + body + Fence + post) == Strip(body)
  {
    var piece := AfterJsonFence(pre + JsonFence + body + Fence + post);
    AfterJsonFenceOf(pre, body, post);
    if piece == body {
      NotFound(body, Fence);
    } else {
      forall k | 0 <= k < |body| ensures piece[k] != '`' {
        assert piece[k] == body[k];
      }
      assert piece[|body|..|body| + 3] == Fence;
      FirstFoundAt(piece, Fence, |body|);
      assert piece[..|body|] == body;
    }
  }

  /** The piece after the first "```json" of such a reply runs to its end
      or stops right after the body. */
  lemma AfterJsonFenceOf(pre: string, body: string, post: string)
    requires '`' !in pre && '`' !in body && '`' !in post
    ensures var piece := AfterJsonFence(pre + JsonFence + body + Fence + post);
      piece == body || piece == body + Fence + post
  {
    var content := pre + JsonFence + body + Fence + post;
    forall k | 0 <= k < |pre| ensures content[k] != '`' {
      assert content[k] == pre[k];
    }
    assert content[|pre|..|pre| + 7] == JsonFence;
    FirstFoundAt(content, JsonFence, |pre|);
    var rest := content[|pre| + 7..];
    assert rest == body + Fence + post;
    SecondJsonFence(body, post);
  }

  /** After the first "```json", another one can only start right after the
      body. */
  lemma SecondJsonFence(body: string, post: string)
    requires '`' !in body && '`' !in post
    ensures var j := FindFrom(body + Fence + post, JsonFence, 0);
      j == -1 || j == |body|
  {
    var rest := body + Fence + post;
    var j := FindFrom(rest, JsonFence, 0);
    if j != -1 {
      FenceBackquotes(rest, j);
      BackquotesOfFence(body, post);
    }
  }

  /** An opening fence begins with backquotes. */
  lemma FenceBackquotes(s: string, j: int)
    requires OccursAt(s, JsonFence, j)
    ensures s[j] == '`' && s[j + 2] == '`'
  {
    assert s[j..j + 7][0] == s[j] && s[j..j + 7][2] == s[j + 2];
  }

  /** In such a reply the only backquotes are those of the closing fence. */
  lemma BackquotesOfFence(body: string, post: string)
    requires '`' !in body && '`' !in post
    ensures var rest := body + Fence + post;
      forall k :: 0 <= k < |rest| && rest[k] == '`' ==> |body| <= k < |body| + 3
  {
    var rest := body + Fence + post;
    forall k | 0 <= k < |rest| && !(|body| <= k < |body| + 3) ensures rest[k] != '`' {
      if k < |body| {
        assert rest[k] == body[k];
      } else {
        assert rest[k] == post[k - |body| - 3];
      }
    }
  }

  /** Without any backquote the reply is only stripped. */
  lemma ServiceFenceNoFence(content: string)
    requires '`' !in content
    ensures ServiceFence(content) == Strip(content)
  {
    NotFound(content, JsonFence);
    NotFound(content, Fence);
  }

  /** Where the two strippers part ways: given prose before the fence, the
      extractor drops the closing fence but keeps the prose and the opening
      fence, while the service finds the body (`ServiceFenceUnwraps`). */
  lemma ExtractorKeepsProse(pre: string, body: string)
    requires pre != [] && pre[0] != '`'
    ensures ExtractorFence(pre + JsonFence + body + Fence) == Strip(pre + JsonFence + body)
  {
    var content := pre + JsonFence + body + Fence;
    assert content[0] == pre[0];
    assert !StartsWith(content, JsonFence) by {
      if |JsonFence| <= |content| {
        assert content[..|JsonFence|][0] == content[0];
      }
    }
    assert content[|content| - 3..] == Fence;
    assert content[..|content| - 3] == pre + JsonFence + body;
  }

  /** `OpenAILLMService.extract_topics` once the reply is in: rejects empty
      text, otherwise removes the fence and decodes the topics. */
  function ServiceTopics(text: string, content: string, decode: string -> Option<seq<JsonTopic>>)
    : (r: Result<seq<Topic>, LlmError>)
    ensures text == [] ==> r == Err(NoTextForTopics)
    ensures text != [] ==> r == TopicsOfPayload(ServiceFence(content), decode)
  {
    if text == [] then Err(NoTextForTopics) else TopicsOfPayload(ServiceFence(content), decode)
  }

  // ---------------------------------------------------------------------
  // Context of the topic extractor

  /** `chunks[:max_context_chunks]` */
  function ContextChunks(chunks: seq<string>, limit: int): (selected: seq<string>)
    ensures |selected| <= |chunks| && selected == chunks[..|selected|]
    ensures limit >= 0 ==> |selected| == if limit <= |chunks| then limit else |chunks|
  {
    chunks[..SliceIndex(limit, |chunks|)]
  }

  /** `OpenAITopicExtractor.extract_topics` up to the prompt: rejects an
      empty list, otherwise joins the first `max_context_chunks` chunks with
      blank lines. */
  function ExtractorContext(chunks: seq<string>, config: TopicExtractorConfig): (r: Result<string, LlmError>)
    ensures r.Err? <==> chunks == []
    ensures r.Err? ==> r.error == NoChunks
    ensures r.Ok? ==> r.value == Join(ContextChunks(chunks, config.maxContextChunks), "\n\n")
  {
    if chunks == [] then Err(NoChunks)
    else Ok(Join(ContextChunks(chunks, config.maxContextChunks), "\n\n"))
  }

  /** Under an accepted configuration the context is never empty of chunks:
      it takes at least the first one and never more than the limit. */
  lemma ContextWithinLimit(chunks: seq<string>, config: TopicExtractorConfig)
    requires chunks != [] && config.maxContextChunks > 0
    ensures var selected := ContextChunks(chunks, config.maxContextChunks);
      1 <= |selected| <= config.maxContextChunks && selected[0] == chunks[0]
  {
  }
}
