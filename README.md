# noteviz core in Dafny

noteviz turns a PDF of notes into text chunks, picks out topics and key
concepts with a language model, and draws flowcharts of those concepts
as Mermaid diagrams. This project models the deterministic core around those
steps and proves properties of it. The PDF library, the OpenAI calls, JSON
parsing and the numpy arithmetic are inputs to the model, not part of it.

The model covers:

- **The three page chunkers** (`pdf_processor.dfy`, `page_aware_pdf.dfy`, `pypdf.dfy`):
  - the guarded page-aware chunker;
  - the original page-aware chunker, which does not terminate for a positive overlap;
  - that chunker with the missing progress guard added, which `process_pdf` is modelled on;
  - the fixed-window chunker over the concatenated pages;
  - the projection of chunks to their texts;
  - the topic-page lookup.
- **The retrieval index** (`retrieval_base.dfy`, `cosine_retrieval.dfy`):
  - the validated configuration;
  - a class that holds the corpus and replaces it on `index`;
  - the ranking walk of `find_relevant_chunks`, with its threshold break and its result-count break. The similarity of an embedding to the query is a function parameter.
- **Flowcharts** (`flowchart_base.dfy`, `mermaid.dfy`, `flowchart_openai.dfy`):
  - the `Node`, `Edge` and `Flowchart` records;
  - the line-by-line Mermaid serialiser (a class, and a method with loops);
  - the conversion of an already-decoded flowchart reply into records, with topic fallback and missing-key errors.
- **LLM post-processing** (`llm_config.dfy`, `llm_topics.dfy`, `llm_openai.dfy`, `random_chunk.dfy`, `embedding_base.dfy`):
  - the pydantic-validated configurations;
  - empty-input guards;
  - the summary prompt;
  - the key-concept clean-up;
  - both Markdown-fence strippers;
  - context-chunk selection, with the random 3-of-n draw as a nondeterministic choice;
  - the mapping of decoded elements to `Topic` records.
- **The greedy word wrapper** of the sample-PDF generator (`sample_wrap.dfy`), as an imperative loop with its invariant.

Supporting modules:

- `wrappers.dfy` holds `Option` and `Result`.
- `pystr.dfy` models the Python string operations used:
  - `strip` with Python's whitespace set, and `split()`;
  - `split(c)` and `join`;
  - `find`, `rfind` with slice-index normalisation, and `in`;
  - `startswith` and `endswith`;
  - ASCII `lower`;
  - `str(int)`.

## Model

| member | source | states |
|---|---|---|
| PdfBase.ChunkTexts | src/noteviz/core/pdf/page_aware_pdf.py:38 | one text per chunk, in the same order, each the chunk's `text` field |
| PdfProcessor.EffectiveOverlap | src/noteviz/core/pdf/processor.py:14-15 | the overlap used is at most `chunk_overlap` and at most `chunk_size // 2`, and equals one of them: their minimum |
| PdfProcessor.WindowEnd | src/noteviz/core/pdf/processor.py:20-32 | the cut lies strictly after the cursor, within the page, and at most `chunk_size` past the cursor |
| PdfProcessor.WindowEndCases | src/noteviz/core/pdf/processor.py:20-32 | the last window ends at the page end, unsnapped; otherwise the cut is one of three. First, just after the last `"\n\n"` wholly inside the window past its midpoint. Failing that, just after the `.` of the last `". "` past the midpoint. Failing both, `start + chunk_size` |
| PdfProcessor.NextStart | src/noteviz/core/pdf/processor.py:46-49 | the cursor either moves strictly forward or moves to the cut: the progress guard |
| PdfProcessor.PageChunks | src/noteviz/core/pdf/processor.py:17-52 | definition: the non-blank chunks of the guarded windows from cursor 0; its properties are stated by `PageChunksValid`, `PageChunksCover` and `BlankWindowsNoChunks` |
| PdfProcessor.DocumentChunks | src/noteviz/core/pdf/processor.py:8-52 | definition: the pages' chunks in order, blank pages skipped, numbered from 1; its properties are stated by `DocumentChunksProperties` |
| PdfProcessor.ChunkPage | src/noteviz/core/pdf/processor.py:17-52 | the per-page loop returns exactly `PageChunks`: one chunk per window whose stripped text is not empty |
| PdfProcessor.ProcessPdfSync | src/noteviz/core/pdf/processor.py:8-52 | the page loop returns `DocumentChunks`: blank pages are skipped and pages are numbered from 1 in reader order |
| PdfProcessor.PageChunksValid | src/noteviz/core/pdf/processor.py:17-43 | every chunk carries its page number and has `0 <= start_char < end_char <= len(page)` and a span of at most `chunk_size`. Its text is the stripped span, not empty, and no longer than `chunk_size`. Starts strictly increase |
| PdfProcessor.PageChunksCover | src/noteviz/core/pdf/processor.py:17-49 | with `chunk_overlap >= 0`, every non-whitespace character of the page lies inside the span of some chunk |
| PdfProcessor.BlankWindowsNoChunks | src/noteviz/core/pdf/processor.py:35-43 | a whitespace-only page yields no chunk, whatever its windows |
| PdfProcessor.DocumentChunksProperties | src/noteviz/core/pdf/processor.py:8-49 | every chunk names an existing non-blank page and is valid for it; chunks are ordered by page, then by increasing `start_char` |
| PageAwarePdf.OriginalCut | src/noteviz/core/pdf/page_aware_pdf.py:61-73 | the cut of the original loop, with Python's reading of a negative cursor in `rfind` and in the slice: it lies strictly after the cursor and within the page; `OriginalCutIsWindowEnd` gives its value from a non-negative cursor |
| PageAwarePdf.WalkFrom | src/noteviz/core/pdf/page_aware_pdf.py:59-86 | definition: the spans the original loop visits from a cursor in at most `fuel` iterations, and whether it exits; stated by `WalkRepeatsLastWindow`, `AsWrittenNeverFinishes` and `AsWrittenTerminates` |
| PageAwarePdf.RunPage | src/noteviz/core/pdf/page_aware_pdf.py:59-86 | definition: the chunks of those spans, blank ones kept; stated by `AsWrittenNeverFinishes`, `AsWrittenTerminates`, `AsWrittenPageAgrees` and `GuardedPageAgrees` |
| PageAwarePdf.DocumentRun | src/noteviz/core/pdf/page_aware_pdf.py:53-86 | definition: the page loop over `RunPage`, stopping at a page whose loop does not exit; stated by `DocumentRunPages`, `DocumentRunDiverges` and `GuardedAgreesAsWritten` |
| PageAwarePdf.OriginalCutIsWindowEnd | src/noteviz/core/pdf/page_aware_pdf.py:61-73 | from a non-negative cursor the original snapping rule cuts where the guarded one does |
| PageAwarePdf.OriginalChunkBounds | src/noteviz/core/pdf/page_aware_pdf.py:61-81 | from a non-negative cursor a chunk carries the page number and has `0 <= start_char < end_char <= len(page)` and a span of at most `chunk_size`. Its text is the stripped span, at most `chunk_size` long, and may be empty |
| PageAwarePdf.ChunkPageAsWritten | src/noteviz/core/pdf/page_aware_pdf.py:59-86 | the original per-page loop, run for at most `fuel` iterations, returns the chunks of `RunPage` and whether it left the loop by itself |
| PageAwarePdf.ProcessPdfWithPagesAsWritten | src/noteviz/core/pdf/page_aware_pdf.py:49-88 | the original page loop, bounded by `fuel` per page, returns `DocumentRun` |
| PageAwarePdf.AsWrittenNeverFinishes | src/noteviz/core/pdf/page_aware_pdf.py:84-86 | with `chunk_overlap > 0`, a non-blank page never leaves the loop: after any number of iterations it has appended exactly that many chunks |
| PageAwarePdf.WalkRepeatsLastWindow | src/noteviz/core/pdf/page_aware_pdf.py:84-86 | with `0 < chunk_overlap <= chunk_size`, once the cursor reaches `len - overlap`, every later iteration re-emits the same last window |
| PageAwarePdf.DocumentRunDiverges | src/noteviz/core/pdf/page_aware_pdf.py:53-86 | with `chunk_overlap > 0`, a document with any non-blank page never finishes |
| PageAwarePdf.AsWrittenTerminates | src/noteviz/core/pdf/page_aware_pdf.py:59-86 | with `chunk_overlap <= 0`, the loop finishes within `len(page)` iterations and every chunk is valid |
| PageAwarePdf.AsWrittenPageAgrees | src/noteviz/core/pdf/page_aware_pdf.py:59-86 | when it terminates, the original loop's non-empty chunks are exactly the guarded chunker's chunks |
| PageAwarePdf.DocumentRunPages | src/noteviz/core/pdf/page_aware_pdf.py:53-56 | whitespace-only pages contribute nothing; every chunk carries the 1-based number of a non-blank page |
| PageAwarePdf.ChunkPageGuarded | src/noteviz/core/pdf/page_aware_pdf.py:59-86 | the corrected per-page loop (see Findings) returns `GuardedPageChunks`. That is one chunk per window of the guarded walk, blank windows giving `""` chunks, with `chunk_overlap` as given |
| PageAwarePdf.ProcessPdfWithPages | src/noteviz/core/pdf/page_aware_pdf.py:49-88 | the corrected page loop returns `GuardedDocumentChunks`: blank pages skipped, pages numbered from 1 |
| PageAwarePdf.ProcessPdf | src/noteviz/core/pdf/page_aware_pdf.py:25-38 | returns the texts of the corrected loop's chunks, in order, `""` texts of blank windows included |
| PageAwarePdf.GuardedPageAgrees | src/noteviz/core/pdf/page_aware_pdf.py:59-86 | with `chunk_overlap <= 0` and at least `len(page)` iterations, the original loop exits with exactly the corrected loop's chunks |
| PageAwarePdf.GuardedAgreesAsWritten | src/noteviz/core/pdf/page_aware_pdf.py:49-88 | over a whole document, wherever the original exits (`chunk_overlap <= 0`, enough iterations), it returns exactly the corrected chunks, `""` ones included |
| PageAwarePdf.GuardedPageNonEmpty | src/noteviz/core/pdf/page_aware_pdf.py:75-81 | when `processor.py` does not cap the overlap, dropping the `""` chunks of the corrected loop gives that page's `processor.py` chunks |
| PageAwarePdf.GuardedDocumentNonEmpty | src/noteviz/core/pdf/page_aware_pdf.py:53-81 | the same over a whole document: blank windows are the only difference from `processor.py` |
| PageAwarePdf.GuardedPageValid | src/noteviz/core/pdf/page_aware_pdf.py:59-86 | every corrected chunk has `0 <= start_char < end_char <= len(page)` and a span of at most `chunk_size`. Its text is the stripped span, possibly empty. Starts strictly increase |
| PageAwarePdf.GuardedDocumentValid | src/noteviz/core/pdf/page_aware_pdf.py:53-86 | every corrected chunk names an existing non-blank page, numbered from 1, and is valid for it |
| PageAwarePdf.ProcessPdfTexts | src/noteviz/core/pdf/page_aware_pdf.py:25-38 | every returned text is at most `chunk_size` long |
| PageAwarePdf.SortedList | src/noteviz/core/pdf/page_aware_pdf.py:129 | `sorted(list(s))`: strictly increasing, with exactly the elements of the set |
| PageAwarePdf.FindTopicPages | src/noteviz/core/pdf/page_aware_pdf.py:112-129 | strictly increasing (so no duplicates). A page is listed iff some chunk of that page contains the lower-cased topic in its lower-cased text |
| PyPdf.PagesText | src/noteviz/core/pdf/pypdf.py:25-30 | definition: each page followed by `"\n"`, so at least one character per page; stated by `PagesTextIsJoin` |
| PyPdf.PagesTextIsJoin | src/noteviz/core/pdf/pypdf.py:25-30 | no pages give the empty text; otherwise the text is the pages joined by `"\n"` plus a final `"\n"` |
| PyPdf.ConcatPages | src/noteviz/core/pdf/pypdf.py:25-30 | the accumulation loop returns `PagesText`: each page followed by `"\n"`, in order |
| PyPdf.FixedWindows | src/noteviz/core/pdf/pypdf.py:33-39 | definition: chunk `k` is `text[k*step : k*step + chunk_size]` for `ceil(len/step)` starts; stated by `CountAbove`, `CountBelow`, `WindowShape` and `WindowsReassemble` |
| PyPdf.FixedChunks | src/noteviz/core/pdf/pypdf.py:33-41 | the window loop returns `FixedWindows`: chunk `k` is `text[k*step : k*step + chunk_size]` for each of the `ceil(len/step)` window starts |
| PyPdf.ProcessPdf | src/noteviz/core/pdf/pypdf.py:15-41 | the fixed windows of the concatenated pages |
| PyPdf.CountAbove | src/noteviz/core/pdf/pypdf.py:35 | every window start `k*step` below the text length is counted |
| PyPdf.CountBelow | src/noteviz/core/pdf/pypdf.py:35 | no window starts at or past the text length |
| PyPdf.WindowShape | src/noteviz/core/pdf/pypdf.py:36-37 | chunk `k` starts at `k*step` inside the text and is the text from there. It holds between 1 and `chunk_size` characters: exactly `chunk_size` when that fits, otherwise the rest of the text |
| PyPdf.ChunkCountOfPages | src/noteviz/core/pdf/pypdf.py:25-39 | no pages give no chunks; any page, even a blank one, gives at least one |
| PyPdf.WindowsReassemble | src/noteviz/core/pdf/pypdf.py:33-39 | with `0 <= chunk_overlap < chunk_size`, the first `step` characters of the chunks, laid end to end, give back the whole text |
| PyPdf.FixedRunDiverges | src/noteviz/core/pdf/pypdf.py:35-39 | with `chunk_size <= chunk_overlap` the cursor never advances past a non-empty text |
| PyPdf.FixedRunEndsIff | src/noteviz/core/pdf/pypdf.py:35-39 | on a non-empty text the loop ends iff `chunk_size > chunk_overlap` |
| RetrievalBase.NewRetrievalConfig | src/noteviz/core/retrieval/base.py:7-22 | accepted iff the threshold lies in `[0, 1]` and `max_results > 0`; values stored as given; the threshold is checked first |
| RetrievalBase.DefaultConfigAccepted | src/noteviz/core/retrieval/base.py:11-15 | the defaults 0.7 and 5 are accepted |
| CosineRetrieval.Scores | src/noteviz/core/retrieval/cosine.py:48-50 | one similarity per indexed vector, in order |
| CosineRetrieval.RankFirst | src/noteviz/core/retrieval/cosine.py:53 | the ranking of the first `k` entries has non-increasing scores and holds each of them exactly once |
| CosineRetrieval.InsertDescending | src/noteviz/core/retrieval/cosine.py:53 | inserting a position into a descending ranking keeps it descending |
| CosineRetrieval.Ranking | src/noteviz/core/retrieval/cosine.py:53 | definition: the insertion ranking of all positions; stated by `RankingIsRanking` |
| CosineRetrieval.RankingIsRanking | src/noteviz/core/retrieval/cosine.py:53 | the ranking is what `argsort(...)[::-1]` promises: every position exactly once, scores non-increasing |
| CosineRetrieval.Lead | src/noteviz/core/retrieval/cosine.py:55-58 | the walk's threshold break: the length of the leading run of scores at or above the threshold |
| CosineRetrieval.AtMost | src/noteviz/core/retrieval/cosine.py:59-60 | the walk's count break: the run cut to `max_results` |
| CosineRetrieval.Pairs | src/noteviz/core/retrieval/cosine.py:61 | each taken position gives `(texts[i], score_i)` |
| CosineRetrieval.Select | src/noteviz/core/retrieval/cosine.py:53-61 | definition: the ranking cut at the threshold break, then at `max_results`; stated by `SelectShape`, `SelectIsBest`, `SelectCount` and `SelectMonotone` |
| CosineRetrieval.SelectShape | src/noteviz/core/retrieval/cosine.py:53-61 | at most `max_results` results, every score at or above the threshold, scores non-increasing, no entry twice |
| CosineRetrieval.SelectIsBest | src/noteviz/core/retrieval/cosine.py:53-61 | an entry left out either falls under the threshold or scores no higher than the last one taken: the result is a top-k prefix |
| CosineRetrieval.SelectCount | src/noteviz/core/retrieval/cosine.py:53-61 | the count is `min(max_results, #{i : score_i >= threshold})` |
| CosineRetrieval.SelectMonotone | src/noteviz/core/retrieval/cosine.py:55-58 | raising the threshold gives a prefix of the former result: never more results |
| CosineRetrieval.LeadMonotone | src/noteviz/core/retrieval/cosine.py:55-58 | a higher threshold never lengthens the leading run |
| CosineRetrieval.FindOutcome | src/noteviz/core/retrieval/cosine.py:31-63 | definition: the empty-index error, the dimension error, otherwise the pairs of `Select` over `Ranking`; stated through `FindRelevantChunks` and the `Select` lemmas |
| CosineRetrieval.CosineRetrieval.constructor | src/noteviz/core/retrieval/cosine.py:11-14 | keeps the configuration, with empty `texts` and `embeddings` |
| CosineRetrieval.CosineRetrieval.Index | src/noteviz/core/retrieval/cosine.py:16-29 | rejects different lengths, then an empty list, leaving the corpus unchanged; on success replaces both lists wholesale |
| CosineRetrieval.CosineRetrieval.FindRelevantChunks | src/noteviz/core/retrieval/cosine.py:31-63 | fails on an empty index and on a query of another dimension; otherwise returns the pairs of the selected top entries of the ranking |
| FlowchartBase.RecordDefaults | src/noteviz/core/flowchart/base.py:6-28 | `Node` defaults to no description and confidence 1.0; `Edge` and `Flowchart` default to no description; supplied fields are kept |
| Mermaid.NodeStyle | src/noteviz/core/flowchart/mermaid.py:92-106 | high confidence iff `>= 0.8`, medium iff in `[0.6, 0.8)`, low iff `< 0.6` |
| Mermaid.NodeStyleMonotone | src/noteviz/core/flowchart/mermaid.py:101-106 | a more confident node never gets a lower class |
| Mermaid.StyleDictToStr | src/noteviz/core/flowchart/mermaid.py:125-126 | an empty style map gives the fixed default style |
| Mermaid.StyleDictSplitsBack | src/noteviz/core/flowchart/mermaid.py:128 | a non-empty map's string splits on `,` back into its `k:v` items, in order, when no key or value holds a comma |
| Mermaid.NodeLinesShape | src/noteviz/core/flowchart/mermaid.py:48-61 | a node gives its definition line with its confidence class. A tooltip line follows iff its description is non-empty |
| Mermaid.EdgeLinesShape | src/noteviz/core/flowchart/mermaid.py:64-77 | an edge gives its definition line with `:::default`. A tooltip line follows iff its description is non-empty |
| Mermaid.RenderLines | src/noteviz/core/flowchart/mermaid.py:39-88 | definition: header, node lines, edge lines and trailer; stated by `RenderOpens` and `RenderSections` |
| Mermaid.RenderOpens | src/noteviz/core/flowchart/mermaid.py:39-45 | the first line is `flowchart <direction>` and the second `%% <title>`. A third `%% <description>` line appears iff the description is non-empty |
| Mermaid.RenderSections | src/noteviz/core/flowchart/mermaid.py:39-90 | the lines are the header, then the node lines in input order, then the edge lines in input order, then the seven trailer lines. The `classDef default` trailer line is built from `node_style` |
| Mermaid.MermaidRenderer.constructor | src/noteviz/core/flowchart/mermaid.py:9-27 | stores direction and theme as given; a missing style map becomes empty |
| Mermaid.MermaidRenderer.Render | src/noteviz/core/flowchart/mermaid.py:29-90 | the loops build exactly the render lines, joined by `"\n"` |
| FlowchartOpenAi.ResolveFocus | src/noteviz/core/flowchart/openai.py:52-57 | when both topic and keywords are given they are used and the extractor is not consulted. Otherwise the first extracted topic fills only the missing ones. Extraction failures and an empty topic list are errors |
| FlowchartOpenAi.FocusIgnoresExtractor | src/noteviz/core/flowchart/openai.py:52 | with both given, any two extractors give the same focus |
| FlowchartOpenAi.NodeOf | src/noteviz/core/flowchart/openai.py:104-109 | succeeds iff `id`, `label` and `confidence` are present; otherwise a missing-key error |
| FlowchartOpenAi.EdgeOf | src/noteviz/core/flowchart/openai.py:114-119 | succeeds iff `source`, `target` and `label` are present; otherwise a missing-key error |
| FlowchartOpenAi.ConvertNodes | src/noteviz/core/flowchart/openai.py:103-111 | one node per decoded node, in order, fields copied, description defaulting to `""`; fails iff some node lacks a required key |
| FlowchartOpenAi.ConvertEdges | src/noteviz/core/flowchart/openai.py:113-121 | one edge per decoded edge, in order, fields copied, description defaulting to `""`; fails iff some edge lacks a required key |
| FlowchartOpenAi.WellFormed | src/noteviz/core/flowchart/openai.py:103-121 | definition: both lists are present and every element has its required keys; `GenerateFlowchart` succeeds iff it holds, given a resolved focus and a decodable reply |
| FlowchartOpenAi.GenerateFlowchart | src/noteviz/core/flowchart/openai.py:52-128 | succeeds iff the focus resolves and the reply decodes and is well formed. An undecodable reply is an error before any record is built. The title is `Flowchart: <topic>`, the description `Flowchart generated from text about <topic>`, and nodes and edges correspond one to one |
| FlowchartOpenAi.GeneratedTooltips | src/noteviz/core/flowchart/openai.py:107 | a generated node gets a tooltip line iff the reply gave it a non-empty description |
| LlmConfig.LlmViolations | src/noteviz/core/llm/config.py:9-10 | reports the temperature iff outside `[0, 1]`, the token limit iff not positive, and nothing else |
| LlmConfig.NewLlmSettings | src/noteviz/core/llm/config.py:6-10 | accepted iff the temperature is in `[0, 1]` and `max_tokens > 0`; values stored as given; each failing field reported |
| LlmConfig.NewSummarizerConfig | src/noteviz/core/llm/config.py:13-15 | as above, plus `max_summary_length` absent or positive |
| LlmConfig.NewTopicExtractorConfig | src/noteviz/core/llm/config.py:18-20 | as above, plus positive `num_topics` and `max_context_chunks` |
| LlmConfig.DefaultsAccepted | src/noteviz/core/llm/config.py:8-20 | the defaults `gpt-3.5-turbo`, 0.7, 500, no summary limit, 5 topics and 1000 context chunks are accepted |
| EmbeddingBase.NewEmbeddingConfig | src/noteviz/core/embedding/base.py:10-14 | accepted iff the device is `cpu` or `cuda` and `batch_size > 0`; the model name is required; values stored as given |
| EmbeddingBase.DefaultsAccepted | src/noteviz/core/embedding/base.py:13-14 | the defaults `cpu` and 32 are accepted for any model name |
| LlmTopics.TopicOf | src/noteviz/core/llm/openai.py:141-146 | succeeds iff all four keys are present, with the fields copied. Otherwise the first missing key in the order `name`, `description`, `confidence`, `keywords` is reported |
| LlmTopics.MapTopics | src/noteviz/core/llm/openai.py:242-250 | one topic per decoded element, in order; fails iff some element lacks a key |
| LlmTopics.TopicsOfPayload | src/noteviz/core/llm/openai.py:138-148 | an undecodable reply is an error; otherwise the decoded elements are mapped |
| LlmTopics.ExtractorFence | src/noteviz/core/llm/openai.py:233-237 | never longer than the reply; stated by `ExtractorFenceUnwraps`, `ExtractorFenceKeeps` and `ExtractorKeepsProse` |
| LlmTopics.ExtractorFenceUnwraps | src/noteviz/core/llm/openai.py:233-239 | a reply wrapped in a fence gives back its stripped body |
| LlmTopics.ExtractorFenceKeeps | src/noteviz/core/llm/random_chunk.py:76-82 | a reply that neither starts with "```json" nor ends with "```" is only stripped |
| LlmTopics.ExtractorOutcome | src/noteviz/core/llm/random_chunk.py:34-35 | an empty chunk list is an error; otherwise the reply loses its fence and is decoded into topics |
| LlmOpenAi.SummaryPrompt | src/noteviz/core/llm/openai.py:39-42 | the prompt starts with the fixed header and ends with the text. It is longer than both together iff the limit is truthy |
| LlmOpenAi.SummaryLimitReadsBack | src/noteviz/core/llm/openai.py:41 | a positive limit reads back, in decimal, from where the limit sentence puts it |
| LlmOpenAi.GenerateSummaryPrompt | src/noteviz/core/llm/openai.py:36-42 | empty text is rejected; otherwise the summary prompt with the caller's limit |
| LlmOpenAi.SummarizerPrompt | src/noteviz/core/llm/openai.py:167-170 | no guard; without a configured limit the prompt is the header and the text |
| LlmOpenAi.NonBlank | src/noteviz/core/llm/openai.py:90 | keeps only non-blank lines, and every non-blank line occurs in the result |
| LlmOpenAi.NonBlankInOrder | src/noteviz/core/llm/openai.py:90 | the result is the lines at strictly increasing positions, and those positions include every non-blank line's, so order and repeats are kept |
| LlmOpenAi.CleanEach | src/noteviz/core/llm/openai.py:89-90 | one concept per kept line, in order; fails iff some line's clean-up fails |
| LlmOpenAi.AfterFirst | src/noteviz/core/llm/openai.py:89 | `split(sep, 1)[1]`: none iff `sep` does not occur; otherwise exactly what follows its first occurrence |
| LlmOpenAi.CleanLine | src/noteviz/core/llm/openai.py:89 | the clean-up as written: a line without `". "` is stripped, and the only error is the missing second part. Where it fails is stated by `CleanLineFails` |
| LlmOpenAi.CleanLineFails | src/noteviz/core/llm/openai.py:89 | the clean-up of a line fails exactly when the strip cuts the line's only `". "` in two |
| LlmOpenAi.DoneLineFails | src/noteviz/core/llm/openai.py:89 | `"Done. "` makes the clean-up fail, where the intended one gives `"Done."` |
| LlmOpenAi.CleanLineIntended | src/noteviz/core/llm/openai.py:89 | the corrected clean-up: the stripped line when it holds no `". "`, otherwise exactly what follows its first `". "` |
| LlmOpenAi.CleanLineAgrees | src/noteviz/core/llm/openai.py:89 | wherever the code's clean-up succeeds, it returns the corrected one |
| LlmOpenAi.CleanConceptsAgrees | src/noteviz/core/llm/openai.py:88-90 | wherever the code's clean-up of a reply succeeds, it returns the corrected one |
| LlmOpenAi.IdentifyKeyConcepts | src/noteviz/core/llm/openai.py:66-90 | empty text is rejected. Otherwise there is one concept per non-blank line, equal to the code's result wherever the code succeeds |
| LlmOpenAi.AfterJsonFence | src/noteviz/core/llm/openai.py:131-132 | `split("```json")[1]`: never longer than the reply, and the reply itself when it holds no "```json" |
| LlmOpenAi.BeforeFence | src/noteviz/core/llm/openai.py:133-134 | `split("```")[0]`: a prefix holding no "```", the whole text when it holds none |
| LlmOpenAi.ServiceFence | src/noteviz/core/llm/openai.py:131-137 | never longer than the reply; stated by `ServiceFenceUnwraps` and `ServiceFenceNoFence` |
| LlmOpenAi.ServiceFenceUnwraps | src/noteviz/core/llm/openai.py:131-137 | a fenced reply with prose before and after gives back its stripped body, when no other backquote occurs |
| LlmOpenAi.ServiceFenceNoFence | src/noteviz/core/llm/openai.py:131-137 | a reply without backquotes is only stripped |
| LlmOpenAi.ExtractorKeepsProse | src/noteviz/core/llm/openai.py:233-239 | with prose before the fence, the extractor drops only the closing fence and keeps the prose and the opening fence |
| LlmOpenAi.ServiceTopics | src/noteviz/core/llm/openai.py:102-148 | empty text is rejected; otherwise the service's fence removal, then decoding |
| LlmOpenAi.ContextChunks | src/noteviz/core/llm/openai.py:206 | a prefix of the chunks, of length `min(limit, len)` for a non-negative limit |
| LlmOpenAi.ExtractorContext | src/noteviz/core/llm/openai.py:202-207 | an empty chunk list is rejected; otherwise the first `max_context_chunks` chunks joined by blank lines |
| LlmOpenAi.ContextWithinLimit | src/noteviz/core/llm/openai.py:206 | under a valid configuration at least the first chunk and at most the limit are used |
| RandomChunk.ContextText | src/noteviz/core/llm/random_chunk.py:34-44 | an empty list is rejected. Up to three chunks are joined in order; with more, three chunks from distinct positions are joined |
| RandomChunk.SampleWithin | src/noteviz/core/llm/random_chunk.py:39 | the drawn chunks, as a multiset, lie within the input |
| SampleWrap.WrapText | tests/integration/data/generate_sample_pdf.py:134-153 | blank text gives no lines. Otherwise the lines are the joined groups of a greedy layout of `text.split()`: a word starts a new line exactly when the counter plus its length plus one exceeds the width |
| SampleWrap.WrapKeepsWords | tests/integration/data/generate_sample_pdf.py:136-151 | the words of the output lines, in order, are exactly `text.split()` |
| SampleWrap.OnlyFirstLineEmpty | tests/integration/data/generate_sample_pdf.py:137-146 | only the first line can be empty, and it is iff the first word is longer than `width - 1` |
| SampleWrap.LineLengths | tests/integration/data/generate_sample_pdf.py:142-148 | a non-empty first line is at most `width - 1` long; later lines are at most `width` long unless they hold one word |
| PyStr.StripIdempotent | src/noteviz/core/pdf/processor.py:35 | stripping twice is stripping once |
| PyStr.WordsOfJoin | tests/integration/data/generate_sample_pdf.py:146 | splitting words joined by single spaces gives the words back |
| PyStr.NatToStringRoundTrip | src/noteviz/core/llm/openai.py:41 | the decimal rendering of a number parses back to it |

## Left out

- PDF reading (`PdfReader`, `extract_text`) and `extract_metadata`: a foreign library. Page texts are an input list of strings.
- `embedding/openai.py`, and every chat and embedding call: network calls. Their replies are parameters.
- `json.loads`: a foreign parser. A decoded reply is a datatype with an `Option` per key, or `None` when undecodable. Wrong-typed values are not modelled.
- The prompts of `identify_key_concepts`, `extract_topics`, the topic extractors and `generate_flowchart`, and the model name, temperature and token settings sent with each call. These are only sent to the network service, and nothing the model states depends on them. The summary prompt is modelled because `summarize`'s length limit is spelled into it.
- async scheduling is treated as sequential.
- pydantic type coercion is left out: a field violation returns the list of failing fields, and coercing values of other types is not modelled.
- Streamlit UI, the CLI, environment configuration and the other test helpers: not part of this model.
- `lower()` is ASCII only. `strip()` and `split()` use Python's full `isspace` set.
- Floating point is modelled as reals, so NaN and rounding are not modelled.
- CosineRetrieval.CosineRetrieval.FindRelevantChunks: the similarity is a function parameter, not numpy's cosine, so the zero-norm NaN case is not modelled. Ties are ranked by an insertion order of the model's choosing, because `argsort` leaves the order of equal scores unspecified.
- PdfProcessor.ChunkPage: requires `chunk_size >= 1`. Every caller passes a positive size. A size of at most 0 is not modelled. With size 0 and a negative overlap the source ends with no chunks, since the cursor moves by `-chunk_overlap`. With a non-negative overlap its cursor never moves.
- PdfProcessor.ProcessPdfSync: requires `chunk_size >= 1`, for the same reason.
- PageAwarePdf.ChunkPageGuarded: requires `chunk_size >= 1`, like the guarded chunker.
- PageAwarePdf.ProcessPdf: models the corrected loop (see Findings). Where the original loop exits, the two agree exactly, `""` chunks included (`GuardedAgreesAsWritten`).
- PageAwarePdf.ChunkPageAsWritten: runs at most `fuel` iterations, because the original loop need not end. The lemmas state when it ends and when it never does.
- PageAwarePdf.ProcessPdfWithPagesAsWritten: bounded by `fuel` per page, for the same reason.
- PyPdf.FixedChunks: requires `chunk_size > chunk_overlap`. Otherwise the source's loop does not end on a non-empty text, as PyPdf.FixedRunEndsIff states.
- PyPdf.ProcessPdf: requires `chunk_size > chunk_overlap`, for the same reason.
- LlmOpenAi.ServiceFenceUnwraps: proved only for replies with no backquote outside the two fences. Replies with stray backquotes are described by the definition alone.
- Mermaid.StyleDictSplitsBack: a style dictionary is a list of key/value pairs in insertion order. Keys are not required to be distinct.
- Mermaid.MermaidRenderer.constructor: `edge_style` is stored but never read, as in the source.

## Findings

| source | as written | input that shows it | evidently intended | confidence | as-written member | corrected member |
|---|---|---|---|---|---|---|
| src/noteviz/core/pdf/page_aware_pdf.py:84-86 | the cursor moves to `end - chunk_overlap` with no progress guard, and `end <= len(page_text)` | the page `"a"` with the default `chunk_size` 1000 and `chunk_overlap` 200: the cursor goes from 0 to -199, then stays at -199 forever, re-emitting `"a"` | move the cursor to `end` when `end - chunk_overlap` would not pass the previous start, as `processor.py:46-49` does. Nothing else changes: blank windows still give `""` chunks and the overlap is not capped | not executed | PageAwarePdf.AsWrittenNeverFinishes | PageAwarePdf.ChunkPageGuarded |
| src/noteviz/core/llm/openai.py:89 | `". " in concept` tests the unstripped line, but the split is done on the stripped one | a reply line `"Done. "`: the test passes, the stripped line `"Done."` splits into one part, and `[1]` raises `IndexError` | test the stripped line, keeping it whole when it holds no `". "` | not executed | LlmOpenAi.DoneLineFails | LlmOpenAi.CleanConceptsAgrees |
