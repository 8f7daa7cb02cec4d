/** `PyPDFProcessor.process_pdf`: every page's text followed by a newline,
    concatenated, then cut into fixed windows of `chunk_size` characters whose
    starts are `chunk_size - chunk_overlap` apart. No snapping, stripping or
    filtering happens. */
module PyPdf {
  import opened PyStr
  import opened PdfBase

  /** The working text: each page followed by `"\n"`, in page order. */
  function PagesText(pages: seq<string>): (text: string)
    ensures |text| >= |pages|
  {
    if pages == [] then [] else pages[0] + "\n" + PagesText(pages[1..])
  }

  lemma {:induction false} PagesTextSnoc(pages: seq<string>, page: string)
    ensures PagesText(pages + [page]) == PagesText(pages) + page + "\n"
  {
    if pages == [] {
      assert pages + [page] == [page];
      assert PagesText([page]) == page + "\n" + PagesText([]);
    } else {
      assert (pages + [page])[1..] == pages[1..] + [page];
      PagesTextSnoc(pages[1..], page);
    }
  }

  /** The working text is the pages joined by newlines with one more newline
      at the end; no pages give the empty text. */
  lemma {:induction false} PagesTextIsJoin(pages: seq<string>)
    ensures pages == [] ==> PagesText(pages) == []
    ensures pages != [] ==> PagesText(pages) == Join(pages, "\n") + "\n"
  {
    if |pages| == 1 {
      assert pages[1..] == [];
    } else if |pages| > 1 {
      PagesTextIsJoin(pages[1..]);
      JoinCons(pages[0], pages[1..], "\n");
      assert [pages[0]] + pages[1..] == pages;
    }
  }

  /** The page loop of `process_pdf`. */
  method ConcatPages(pages: seq<string>) returns (text: string)
    ensures text == PagesText(pages)
  {
    text := "";
    for i := 0 to |pages|
      invariant text == PagesText(pages[..i])
    {
      PagesTextSnoc(pages[..i], pages[i]);
      assert pages[..i + 1] == pages[..i] + [pages[i]];
      text := text + pages[i] + "\n";
    }
    assert pages[..|pages|] == pages;
  }

  /** How many windows of stride `step` start before position `n`:
      the ceiling of `n / step`. */
  function WindowCount(n: nat, step: int): (c: nat)
    requires step > 0
  {
    (n + step - 1) / step
  }

  lemma CountAbove(n: nat, step: int, k: nat)
    requires step > 0 && k * step < n
    ensures k < WindowCount(n, step)
  {
    var c := WindowCount(n, step);
    assert (n + step - 1) - c * step < step;
    MulMono(c, k, step);
  }

  lemma CountBelow(n: nat, step: int, k: nat)
    requires step > 0 && k * step >= n
    ensures k >= WindowCount(n, step)
  {
    var c := WindowCount(n, step);
    assert c * step <= n + step - 1;
    MulMono(k + 1, c, step);
    MulSucc(k, step);
  }

  lemma MulMono(a: int, b: int, step: int)
    requires step > 0
    ensures a <= b ==> a * step <= b * step
  {
  }

  lemma MulSucc(k: nat, step: int)
    ensures (k + 1) * step == k * step + step
  {
  }

  /** The chunks `process_pdf` returns for a working text: chunk `k` is
      `text[k*step : k*step + chunk_size]` with `step = chunk_size - chunk_overlap`,
      one for every window start below `len(text)`. */
  function FixedWindows(text: string, config: PdfConfig): (chunks: seq<string>)
    requires config.chunkSize > config.chunkOverlap
  {
    var step := config.chunkSize - config.chunkOverlap;
    seq(WindowCount(|text|, step), k requires k >= 0 =>
      Slice(text, k * step, k * step + config.chunkSize))
  }

  /** The window loop of `process_pdf`. The source's loop only ends when the
      stride `chunk_size - chunk_overlap` is positive (see `FixedRunDiverges`). */
  method FixedChunks(text: string, config: PdfConfig) returns (chunks: seq<string>)
    requires config.chunkSize > config.chunkOverlap
    ensures chunks == FixedWindows(text, config)
  {
    var size, overlap := config.chunkSize, config.chunkOverlap;
    ghost var step := size - overlap;
    ghost var n := WindowCount(|text|, step);
    chunks := [];
    var start := 0;
    while start < |text|
      invariant start == |chunks| * step
      invariant |chunks| <= n
      invariant forall k :: 0 <= k < |chunks| ==> chunks[k] == Slice(text, k * step, k * step + size)
      decreases |text| - start
    {
      CountAbove(|text|, step, |chunks|);
      MulSucc(|chunks|, step);
      var end := start + size;
      var chunk := Slice(text, start, end);
      chunks := chunks + [chunk];
      start := end - overlap;
    }
    CountBelow(|text|, step, |chunks|);
  }

  /** `process_pdf`: concatenate the pages, then cut the windows. */
  method ProcessPdf(pages: seq<string>, config: PdfConfig) returns (chunks: seq<string>)
    requires config.chunkSize > config.chunkOverlap
    ensures chunks == FixedWindows(PagesText(pages), config)
  {
    var text := ConcatPages(pages);
    chunks := FixedChunks(text, config);
  }

  lemma MulNonneg(k: nat, step: int)
    requires step > 0
    ensures k * step >= 0
  {
  }

  /** `text[a : a + size]` for a start inside the text. */
  lemma SliceFrom(text: string, a: int, size: int)
    requires 0 <= a < |text| && size >= 1
    ensures var w := Slice(text, a, a + size);
      && 1 <= |w| <= size
      && w == text[a..a + |w|]
      && (a + size <= |text| ==> |w| == size)
      && (a + size > |text| ==> |w| == |text| - a)
  {
  }

  /** Every chunk is a non-empty run of the working text of at most
      `chunk_size` characters, starting `k * step` characters in; only a
      window that reaches past the end is shorter than `chunk_size`. */
  lemma WindowShape(text: string, config: PdfConfig, k: nat)
    requires config.chunkSize >= 1 && config.chunkSize > config.chunkOverlap
    requires k < |FixedWindows(text, config)|
    ensures var step := config.chunkSize - config.chunkOverlap;
      var w := FixedWindows(text, config)[k];
      && 0 <= k * step < |text|
      && 1 <= |w| <= config.chunkSize
      && w == text[k * step .. k * step + |w|]
      && (k * step + config.chunkSize <= |text| ==> |w| == config.chunkSize)
      && (k * step + config.chunkSize > |text| ==> |w| == |text| - k * step)
  {
    var step := config.chunkSize - config.chunkOverlap;
    var a := k * step;
    MulNonneg(k, step);
    if a >= |text| {
      CountBelow(|text|, step, k);
      assert false;
    }
    assert FixedWindows(text, config)[k] == Slice(text, a, a + config.chunkSize);
    SliceFrom(text, a, config.chunkSize);
  }

  /** No pages give no chunks; any page at all, even a blank one, gives at
      least one chunk, because every page contributes a newline. */
  lemma ChunkCountOfPages(pages: seq<string>, config: PdfConfig)
    requires config.chunkSize > config.chunkOverlap
    ensures pages == [] <==> FixedWindows(PagesText(pages), config) == []
  {
    var step := config.chunkSize - config.chunkOverlap;
    var n := |PagesText(pages)|;
    if pages != [] {
      CountAbove(n, step, 0);
    }
  }

  /** With a non-negative overlap (so the stride is at most the window), the
      first `step` characters of the windows, laid end to end, give back the
      whole working text: the windows leave no gap. */
  function Heads(chunks: seq<string>, step: nat): (text: string)
    decreases |chunks|
  {
    if chunks == [] then []
    else chunks[0][..if |chunks[0]| < step then |chunks[0]| else step] + Heads(chunks[1..], step)
  }

  /** One window's head followed by the rest of the text from the next
      window's start is the rest of the text from this window's start. */
  lemma HeadStep(text: string, a: int, step: int, w: string, rest: string)
    requires 0 <= a < |text| && step >= 1
    requires 1 <= |w| && a + |w| <= |text| && w == text[a..a + |w|]
    requires a + step <= |text| ==> |w| >= step
    requires a + step > |text| ==> |w| == |text| - a
    requires rest == text[if a + step < |text| then a + step else |text|..]
    ensures w[..if |w| < step then |w| else step] + rest == text[a..]
  {
    if a + step < |text| {
      assert w[..step] == text[a..a + step];
      assert text[a..] == text[a..a + step] + text[a + step..];
    } else {
      assert w[..if |w| < step then |w| else step] == text[a..];
    }
  }

  /** The heads of the windows from the `k`-th onward are the working text
      from the `k`-th window's start onward. */
  lemma {:induction false} HeadsFrom(text: string, config: PdfConfig, k: nat)
    requires 0 <= config.chunkOverlap < config.chunkSize
    requires k <= WindowCount(|text|, config.chunkSize - config.chunkOverlap)
    ensures var step := config.chunkSize - config.chunkOverlap;
      var ws := FixedWindows(text, config);
      Heads(ws[k..], step) == text[if k * step < |text| then k * step else |text|..]
    decreases WindowCount(|text|, config.chunkSize - config.chunkOverlap) - k
  {
    var step := config.chunkSize - config.chunkOverlap;
    var ws := FixedWindows(text, config);
    var n := WindowCount(|text|, step);
    if k == n {
      CountBelow(|text|, step, k);
      assert ws[k..] == [];
    } else {
      var a := k * step;
      var w := ws[k];
      WindowShape(text, config, k);
      HeadsFrom(text, config, k + 1);
      MulSucc(k, step);
      var rest := Heads(ws[k + 1..], step);
      assert rest == text[if a + step < |text| then a + step else |text|..];
      HeadStep(text, a, step, w, rest);
      assert ws[k..] == [w] + ws[k + 1..];
      assert Heads(ws[k..], step) == w[..if |w| < step then |w| else step] + rest;
    }
  }

  /** With `0 <= chunk_overlap < chunk_size` the windows cover the working text
      without a gap: their leading `step` characters reassemble it. */
  lemma WindowsReassemble(text: string, config: PdfConfig)
    requires 0 <= config.chunkOverlap < config.chunkSize
    ensures Heads(FixedWindows(text, config), config.chunkSize - config.chunkOverlap) == text
  {
    var ws := FixedWindows(text, config);
    HeadsFrom(text, config, 0);
    assert ws[0..] == ws;
  }

  /** The source's loop run for at most `fuel` iterations from cursor `start`:
      true when it has left the loop. It has no precondition, so it also
      describes configurations whose stride is not positive. */
  function FixedRun(n: nat, config: PdfConfig, start: int, fuel: nat): (finished: bool)
    decreases fuel
  {
    if start >= n then true
    else if fuel == 0 then false
    else FixedRun(n, config, start + config.chunkSize - config.chunkOverlap, fuel - 1)
  }

  /** When `chunk_size <= chunk_overlap` the cursor never advances, so on a
      non-empty text the loop never ends, whatever the number of iterations. */
  lemma {:induction false} FixedRunDiverges(n: nat, config: PdfConfig, start: int, fuel: nat)
    requires config.chunkSize <= config.chunkOverlap && start < n
    ensures !FixedRun(n, config, start, fuel)
    decreases fuel
  {
    if fuel > 0 {
      FixedRunDiverges(n, config, start + config.chunkSize - config.chunkOverlap, fuel - 1);
    }
  }

  /** When `chunk_size > chunk_overlap` the loop ends after exactly as many
      iterations as there are windows. */
  lemma {:induction false} FixedRunEnds(n: nat, config: PdfConfig, k: nat, fuel: nat)
    requires config.chunkSize > config.chunkOverlap
    requires k + fuel >= WindowCount(n, config.chunkSize - config.chunkOverlap)
    ensures FixedRun(n, config, k * (config.chunkSize - config.chunkOverlap), fuel)
    decreases fuel
  {
    var step := config.chunkSize - config.chunkOverlap;
    if k * step < n {
      CountAbove(n, step, k);
      assert (k + 1) * step == k * step + step;
      FixedRunEnds(n, config, k + 1, fuel - 1);
    }
  }

  /** On a non-empty text the loop ends for some number of iterations exactly
      when `chunk_size > chunk_overlap`. */
  lemma FixedRunEndsIff(n: nat, config: PdfConfig)
    requires n > 0
    ensures (exists fuel: nat :: FixedRun(n, config, 0, fuel)) <==> config.chunkSize > config.chunkOverlap
  {
    if config.chunkSize > config.chunkOverlap {
      var fuel := WindowCount(n, config.chunkSize - config.chunkOverlap);
      assert 0 * (config.chunkSize - config.chunkOverlap) == 0;
      FixedRunEnds(n, config, 0, fuel);
      assert FixedRun(n, config, 0, fuel);
      assert exists f: nat :: FixedRun(n, config, 0, f);
    } else {
      forall fuel: nat ensures !FixedRun(n, config, 0, fuel) {
        FixedRunDiverges(n, config, 0, fuel);
      }
    }
  }
}
