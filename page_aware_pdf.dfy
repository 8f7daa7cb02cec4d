/** The original page-aware chunker (`PageAwarePDFProcessor`): the same
    paragraph/sentence snapping as the guarded chunker, but every window is
    emitted (blank ones too) and the cursor moves to `end - chunk_overlap`
    with no progress guard. Because that loop need not stop, it is modelled
    with a bound `fuel` on the number of iterations and reports whether it
    exited by itself within that bound. `process_pdf` is modelled on the
    same loop with the progress guard added (`ChunkPageGuarded`), which
    agrees with the original wherever the original exits. */
module PageAwarePdf {
  import opened PyStr
  import opened PdfBase
  import PdfProcessor

  /** The outcome of running a loop for at most a given number of iterations:
      the chunks appended so far and whether the loop exited by itself. */
  datatype Run = Run(chunks: seq<PageAwareChunk>, finished: bool)

  /** A raw `[start, end)` span visited by the loop; the cursor may be negative. */
  datatype Span = Span(start: int, end: int)

  /** The spans visited in at most a given number of iterations, and whether
      the loop exited by itself. */
  datatype Walk = Walk(spans: seq<Span>, finished: bool)

  /** Lines 61-73: where the window that starts at `start` is cut. The cursor
      may be negative here, and Python then reads the bounds of `rfind` and of
      the slice from the end of the page. */
  function OriginalCut(page: string, start: int, size: int): (end: int)
    requires size >= 1 && start < |page|
    ensures start < end <= |page|
  {
    var end0 := if start + size < |page| then start + size else |page|;
    if end0 < |page| then
      var paraBreak := RFind(page, "\n\n", start, end0);
      if paraBreak != -1 && paraBreak > start + size / 2 then paraBreak + 2
      else
        var sentBreak := RFind(page, ". ", start, end0);
        if sentBreak != -1 && sentBreak > start + size / 2 then sentBreak + 1
        else end0
    else end0
  }

  /** Lines 75-80: the chunk of the window `[start, end)`, stripped but not
      filtered. */
  function OriginalChunk(page: string, pageNum: int, start: int, end: int): PageAwareChunk {
    PageAwareChunk(Strip(Slice(page, start, end)), pageNum, start, end)
  }

  /** The spans the loop of lines 59-86 visits from cursor `start`, in at
      most `fuel` iterations. */
  function WalkFrom(page: string, size: int, overlap: int, start: int, fuel: nat): Walk
    requires size >= 1
    decreases fuel
  {
    if start >= |page| then Walk([], true)
    else if fuel == 0 then Walk([], false)
    else
      var end := OriginalCut(page, start, size);
      var rest := WalkFrom(page, size, overlap, end - overlap, fuel - 1);
      Walk([Span(start, end)] + rest.spans, rest.finished)
  }

  /** One iteration of the walk from a cursor inside the page. */
  lemma WalkFromStep(page: string, size: int, overlap: int, start: int, fuel: nat, end: int, next: int, f: nat)
    requires size >= 1 && start < |page| && fuel > 0 && f == fuel - 1
    requires end == OriginalCut(page, start, size) && next == end - overlap
    ensures WalkFrom(page, size, overlap, start, fuel)
         == Walk([Span(start, end)] + WalkFrom(page, size, overlap, next, f).spans,
                 WalkFrom(page, size, overlap, next, f).finished)
  {
  }

  /** The chunk of each span, in order. */
  function Chunkify(page: string, pageNum: int, spans: seq<Span>): (cs: seq<PageAwareChunk>)
    ensures |cs| == |spans|
    ensures forall i :: 0 <= i < |spans| ==> cs[i] == OriginalChunk(page, pageNum, spans[i].start, spans[i].end)
  {
    seq(|spans|, i requires 0 <= i < |spans| => OriginalChunk(page, pageNum, spans[i].start, spans[i].end))
  }

  /** The loop of lines 59-86 on one page, numbered `pageNum`, run for at most
      `fuel` iterations. */
  function RunPage(page: string, pageNum: int, config: PdfConfig, fuel: nat): Run
    requires config.chunkSize >= 1
  {
    var walk := WalkFrom(page, config.chunkSize, config.chunkOverlap, 0, fuel);
    Run(Chunkify(page, pageNum, walk.spans), walk.finished)
  }

  /** One more span adds its chunk at the end. */
  lemma ChunkifySnoc(page: string, pageNum: int, spans: seq<Span>, w: Span)
    ensures Chunkify(page, pageNum, spans + [w])
         == Chunkify(page, pageNum, spans) + [OriginalChunk(page, pageNum, w.start, w.end)]
  {
    var l, r := Chunkify(page, pageNum, spans + [w]), Chunkify(page, pageNum, spans) + [OriginalChunk(page, pageNum, w.start, w.end)];
    assert |l| == |r|;
    forall i | 0 <= i < |l| ensures l[i] == r[i] {
      if i < |spans| {
        assert (spans + [w])[i] == spans[i];
      }
    }
  }

  /** The per-page loop of lines 59-86, stopped after `fuel` iterations if it
      has not exited by then; `finished` tells whether it exited by itself. */
  method ChunkPageAsWritten(pageText: string, pageNum: int, config: PdfConfig, fuel: nat)
    returns (chunks: seq<PageAwareChunk>, finished: bool)
    requires config.chunkSize >= 1
    ensures Run(chunks, finished) == RunPage(pageText, pageNum, config, fuel)
  {
    var size, overlap := config.chunkSize, config.chunkOverlap;
    ghost var whole := WalkFrom(pageText, size, overlap, 0, fuel);
    ghost var spans: seq<Span> := [];
    chunks := [];
    var start: int := 0;
    var left: nat := fuel;
    while start < |pageText| && left > 0
      invariant WalkProgress(pageText, size, overlap, start, left, spans, whole)
      invariant chunks == Chunkify(pageText, pageNum, spans)
      decreases left
    {
      var end := OriginalCut(pageText, start, size);
      var next := end - overlap;
      WalkLoopStep(pageText, size, overlap, start, left, end, next, left - 1, spans, whole);
      chunks := AppendChunk(chunks, pageText, pageNum, start, end, spans);
      spans := spans + [Span(start, end)];
      left := left - 1;
      start := next;
      if start >= |pageText| {
        break;
      }
    }
    finished := start >= |pageText|;
    assert spans == whole.spans;
  }

  /** Lines 75-80: strip the window's text and append its chunk, whatever
      the text. */
  method AppendChunk(chunks: seq<PageAwareChunk>, pageText: string, pageNum: int, start: int, end: int, ghost spans: seq<Span>)
    returns (r: seq<PageAwareChunk>)
    requires chunks == Chunkify(pageText, pageNum, spans)
    ensures r == Chunkify(pageText, pageNum, spans + [Span(start, end)])
  {
    var chunkText := Strip(Slice(pageText, start, end));
    r := chunks + [PageAwareChunk(chunkText, pageNum, start, end)];
    ChunkifySnoc(pageText, pageNum, spans, Span(start, end));
  }

  /** The spans visited so far, followed by those the walk from cursor
      `start` visits in `left` more iterations, are the whole walk, and the
      two walks end the same way. */
  predicate WalkProgress(page: string, size: int, overlap: int, start: int, left: nat, spans: seq<Span>, whole: Walk)
    requires size >= 1
  {
    && spans + WalkFrom(page, size, overlap, start, left).spans == whole.spans
    && WalkFrom(page, size, overlap, start, left).finished == whole.finished
  }

  /** One iteration of the loop keeps the emitted spans followed by the
      spans still to come equal to the whole walk. */
  lemma WalkLoopStep(page: string, size: int, overlap: int, start: int, g: nat, end: int, next: int, f: nat, spans: seq<Span>, whole: Walk)
    requires size >= 1 && start < |page| && g > 0 && f == g - 1
    requires end == OriginalCut(page, start, size) && next == end - overlap
    requires WalkProgress(page, size, overlap, start, g, spans, whole)
    ensures WalkProgress(page, size, overlap, next, f, spans + [Span(start, end)], whole)
  {
    var rest := WalkFrom(page, size, overlap, next, f);
    WalkFromStep(page, size, overlap, start, g, end, next, f);
    PdfProcessor.AppendShift(spans, [Span(start, end)], rest.spans, spans + [Span(start, end)], whole.spans);
  }

  /** With a non-negative cursor the cut is the guarded chunker's cut. */
  lemma OriginalCutIsWindowEnd(page: string, start: nat, size: int)
    requires size >= 1 && start < |page|
    ensures OriginalCut(page, start, size) == PdfProcessor.WindowEnd(page, start, size)
  {
  }

  /** What every chunk of the original loop promises when its cursor is not
      negative: it carries the page number, `0 <= start_char < end_char <= len`,
      it spans at most `chunk_size` characters, and its text is that span
      stripped, hence no longer than `chunk_size`. Unlike the guarded chunker,
      the text may be empty. */
  predicate OriginalChunkValid(c: PageAwareChunk, page: string, pageNum: int, size: int) {
    && c.pageNumber == pageNum
    && 0 <= c.startChar < c.endChar <= |page|
    && c.endChar - c.startChar <= size
    && c.text == Strip(page[c.startChar..c.endChar])
    && |c.text| <= size
  }

  /** One iteration from a non-negative cursor gives a valid chunk. */
  lemma OriginalChunkBounds(page: string, pageNum: int, start: nat, size: int)
    requires size >= 1 && start < |page|
    ensures OriginalChunkValid(OriginalChunk(page, pageNum, start, OriginalCut(page, start, size)), page, pageNum, size)
  {
    OriginalCutIsWindowEnd(page, start, size);
  }

  /** Finding: with a positive overlap the loop never exits while the cursor
      is inside the page. Every cut is at most the page length, so the next
      cursor `end - chunk_overlap` is below it again; each iteration visits
      one span, whatever the number of iterations allowed. */
  lemma {:induction false} WalkNeverFinishes(page: string, size: int, overlap: int, start: int, fuel: nat)
    requires size >= 1 && overlap > 0 && start < |page|
    ensures !WalkFrom(page, size, overlap, start, fuel).finished
    ensures |WalkFrom(page, size, overlap, start, fuel).spans| == fuel
    decreases fuel
  {
    if fuel > 0 {
      var end := OriginalCut(page, start, size);
      WalkNeverFinishes(page, size, overlap, end - overlap, fuel - 1);
    }
  }

  /** The finding on one page: with `chunk_overlap > 0` a non-blank page never
      lets the loop exit, and each iteration appends one chunk. */
  lemma AsWrittenNeverFinishes(page: string, pageNum: int, config: PdfConfig, fuel: nat)
    requires config.chunkSize >= 1 && config.chunkOverlap > 0 && !IsBlank(page)
    ensures !RunPage(page, pageNum, config, fuel).finished
    ensures |RunPage(page, pageNum, config, fuel).chunks| == fuel
  {
    WalkNeverFinishes(page, config.chunkSize, config.chunkOverlap, 0, fuel);
  }

  /** With `0 < chunk_overlap <= chunk_size`, once the cursor reaches
      `len - chunk_overlap` the loop visits the page's last window again and
      again: the window runs to the end of the page and the cursor returns to
      where it was. */
  predicate AllSpansAre(ws: seq<Span>, w: Span) {
    forall i :: 0 <= i < |ws| ==> ws[i] == w
  }

  lemma {:induction false} WalkRepeatsLastWindow(page: string, size: int, overlap: int, fuel: nat)
    requires size >= 1 && 0 < overlap <= size
    ensures AllSpansAre(WalkFrom(page, size, overlap, |page| - overlap, fuel).spans, Span(|page| - overlap, |page|))
    decreases fuel
  {
    var start := |page| - overlap;
    if fuel > 0 {
      assert OriginalCut(page, start, size) == |page|;
      WalkRepeatsLastWindow(page, size, overlap, fuel - 1);
      var rest := WalkFrom(page, size, overlap, start, fuel - 1).spans;
      assert WalkFrom(page, size, overlap, start, fuel).spans == [Span(start, |page|)] + rest;
    }
  }

  /** The span starts inside the page at a non-negative cursor and ends at
      the cut. */
  predicate SpanAtCut(page: string, size: int, w: Span)
    requires size >= 1
  {
    0 <= w.start < |page| && w.end == OriginalCut(page, w.start, size)
  }

  /** Every span starts inside the page and ends at the cut. */
  predicate AllAtCut(page: string, size: int, ws: seq<Span>)
    requires size >= 1
  {
    forall i :: 0 <= i < |ws| ==> SpanAtCut(page, size, ws[i])
  }

  lemma AllAtCutCons(page: string, size: int, w: Span, ws: seq<Span>)
    requires size >= 1 && SpanAtCut(page, size, w) && AllAtCut(page, size, ws)
    ensures AllAtCut(page, size, [w] + ws)
  {
    forall i | 0 <= i < |[w] + ws| ensures SpanAtCut(page, size, ([w] + ws)[i]) {
      if i > 0 {
        assert ([w] + ws)[i] == ws[i - 1];
      }
    }
  }

  /** With `chunk_overlap <= 0` the cursor strictly increases, so the loop
      exits within `len - start` iterations, visiting only spans that start
      inside the page at a non-negative cursor and end at the cut. */
  lemma {:induction false} WalkTerminates(page: string, size: int, overlap: int, start: nat, fuel: nat)
    requires size >= 1 && overlap <= 0 && fuel >= |page| - start
    ensures WalkFrom(page, size, overlap, start, fuel).finished
    ensures AllAtCut(page, size, WalkFrom(page, size, overlap, start, fuel).spans)
    decreases fuel
  {
    if start < |page| {
      var end := OriginalCut(page, start, size);
      var next := end - overlap;
      var f := fuel - 1;
      WalkTerminates(page, size, overlap, next, f);
      WalkFromStep(page, size, overlap, start, fuel, end, next, f);
      AllAtCutCons(page, size, Span(start, end), WalkFrom(page, size, overlap, next, f).spans);
    }
  }

  /** With `chunk_overlap <= 0` and enough iterations the loop exits by
      itself, and every chunk it emitted is valid. */
  lemma AsWrittenTerminates(page: string, pageNum: int, config: PdfConfig, fuel: nat)
    requires config.chunkSize >= 1 && config.chunkOverlap <= 0 && fuel >= |page|
    ensures RunPage(page, pageNum, config, fuel).finished
    ensures forall i :: 0 <= i < |RunPage(page, pageNum, config, fuel).chunks| ==>
      OriginalChunkValid(RunPage(page, pageNum, config, fuel).chunks[i], page, pageNum, config.chunkSize)
  {
    var size := config.chunkSize;
    var ws := WalkFrom(page, size, config.chunkOverlap, 0, fuel).spans;
    WalkTerminates(page, size, config.chunkOverlap, 0, fuel);
    var cs := RunPage(page, pageNum, config, fuel).chunks;
    assert AllAtCut(page, size, ws);
    forall i | 0 <= i < |cs| ensures OriginalChunkValid(cs[i], page, pageNum, size) {
      assert SpanAtCut(page, size, ws[i]);
      OriginalChunkBounds(page, pageNum, ws[i].start, size);
    }
  }

  /** The chunks whose text is not empty. */
  function NonEmpty(cs: seq<PageAwareChunk>): (r: seq<PageAwareChunk>)
    ensures forall i :: 0 <= i < |r| ==> r[i].text != [] && r[i] in cs
  {
    if cs == [] then []
    else Keep(cs[0]) + NonEmpty(cs[1..])
  }

  /** The chunk alone if its text is not empty, nothing otherwise. */
  function Keep(c: PageAwareChunk): (r: seq<PageAwareChunk>)
    ensures r == [] || r == [c]
  {
    if c.text == [] then [] else [c]
  }

  /** One span less: the chunks of `[w] + spans`. */
  lemma ChunkifyCons(page: string, pageNum: int, w: Span, spans: seq<Span>)
    ensures Chunkify(page, pageNum, [w] + spans)
         == [OriginalChunk(page, pageNum, w.start, w.end)] + Chunkify(page, pageNum, spans)
  {
    var l, r := Chunkify(page, pageNum, [w] + spans), [OriginalChunk(page, pageNum, w.start, w.end)] + Chunkify(page, pageNum, spans);
    assert |l| == |r|;
    forall i | 0 <= i < |l| ensures l[i] == r[i] {
      if i > 0 {
        assert ([w] + spans)[i] == spans[i - 1];
      }
    }
  }

  /** The spans of a list of the guarded chunker's windows. */
  function SpansOf(ws: seq<PdfProcessor.Window>): (spans: seq<Span>)
    ensures |spans| == |ws|
    ensures forall i :: 0 <= i < |ws| ==> spans[i] == Span(ws[i].start, ws[i].end)
  {
    seq(|ws|, i requires 0 <= i < |ws| => Span(ws[i].start, ws[i].end))
  }

  /** With `chunk_overlap <= 0` and enough iterations, the original loop
      visits exactly the windows of the guarded chunker from the same
      cursor: the cut is the same and so is the next cursor. */
  lemma {:induction false} WalkIsWindows(page: string, size: int, overlap: int, start: nat, fuel: nat)
    requires size >= 1 && overlap <= 0 && fuel >= |page| - start
    ensures WalkFrom(page, size, overlap, start, fuel).spans == SpansOf(PdfProcessor.WindowsFrom(page, size, overlap, start))
    decreases fuel
  {
    if start < |page| {
      var end := OriginalCut(page, start, size);
      var next := end - overlap;
      var f := fuel - 1;
      WalkIsWindows(page, size, overlap, next, f);
      WalkIsWindowsStep(page, size, overlap, start, fuel, end, next, f);
    }
  }

  /** The inductive step of `WalkIsWindows`. */
  lemma WalkIsWindowsStep(page: string, size: int, overlap: int, start: nat, fuel: nat, end: int, next: nat, f: nat)
    requires size >= 1 && overlap <= 0 && start < |page| && fuel > 0
    requires end == OriginalCut(page, start, size) && next == end - overlap && f == fuel - 1
    requires WalkFrom(page, size, overlap, next, f).spans == SpansOf(PdfProcessor.WindowsFrom(page, size, overlap, next))
    ensures WalkFrom(page, size, overlap, start, fuel).spans == SpansOf(PdfProcessor.WindowsFrom(page, size, overlap, start))
  {
    var ws := PdfProcessor.WindowsFrom(page, size, overlap, next);
    WindowsStep(page, size, overlap, start, end, next);
    WalkFromStep(page, size, overlap, start, fuel, end, next, f);
    SpansOfCons(PdfProcessor.Window(start, end), ws);
  }

  /** With `chunk_overlap <= 0` the guarded chunker's windows from `start`
      are the original cut at `start`, then the windows from the original
      loop's next cursor. */
  lemma WindowsStep(page: string, size: int, overlap: int, start: nat, end: int, next: nat)
    requires size >= 1 && overlap <= 0 && start < |page|
    requires end == OriginalCut(page, start, size) && next == end - overlap
    ensures PdfProcessor.WindowsFrom(page, size, overlap, start)
         == [PdfProcessor.Window(start, end)] + PdfProcessor.WindowsFrom(page, size, overlap, next)
  {
    OriginalCutIsWindowEnd(page, start, size);
    assert PdfProcessor.NextStart(start, end, overlap) == next;
    PdfProcessor.WindowsFromStep(page, size, overlap, start);
  }

  /** One window more at the front gives one span more at the front. */
  lemma SpansOfCons(w: PdfProcessor.Window, ws: seq<PdfProcessor.Window>)
    ensures SpansOf([w] + ws) == [Span(w.start, w.end)] + SpansOf(ws)
  {
    var l, r := SpansOf([w] + ws), [Span(w.start, w.end)] + SpansOf(ws);
    assert |l| == |r|;
    forall i | 0 <= i < |l| ensures l[i] == r[i] {
      if i > 0 {
        assert ([w] + ws)[i] == ws[i - 1];
      }
    }
  }

  /** Over windows inside the page, dropping the blank chunks of the original
      loop's chunks gives the guarded chunker's chunks of the same windows. */
  lemma {:induction false} NonEmptyOfWindows(page: string, pageNum: int, ws: seq<PdfProcessor.Window>)
    requires forall i :: 0 <= i < |ws| ==> ws[i].start <= ws[i].end <= |page|
    ensures NonEmpty(Chunkify(page, pageNum, SpansOf(ws))) == PdfProcessor.ChunksOfWindows(page, pageNum, ws)
  {
    if ws != [] {
      var w := ws[0];
      assert ws == [w] + ws[1..];
      SpansOfCons(w, ws[1..]);
      ChunkifyCons(page, pageNum, Span(w.start, w.end), SpansOf(ws[1..]));
      var c := OriginalChunk(page, pageNum, w.start, w.end);
      var tail := Chunkify(page, pageNum, SpansOf(ws[1..]));
      assert ([c] + tail)[1..] == tail;
      NonEmptyOfWindows(page, pageNum, ws[1..]);
      PdfProcessor.ChunksOfWindowsCons(page, pageNum, w, ws[1..]);
    }
  }

  /** Hence, for `chunk_overlap <= 0`, the non-blank chunks of the original
      loop on a page are that page's chunks under the guarded chunker. */
  lemma AsWrittenPageAgrees(page: string, pageNum: int, config: PdfConfig, fuel: nat)
    requires config.chunkSize >= 1 && config.chunkOverlap <= 0 && fuel >= |page|
    ensures NonEmpty(RunPage(page, pageNum, config, fuel).chunks) == PdfProcessor.PageChunks(page, pageNum, config)
  {
    var ws := PdfProcessor.WindowsFrom(page, config.chunkSize, config.chunkOverlap, 0);
    WalkIsWindows(page, config.chunkSize, config.chunkOverlap, 0, fuel);
    NonEmptyOfWindows(page, pageNum, ws);
  }

  /** The page loop of lines 53-86 over the extracted page texts, each page's
      loop bounded by `fuel` iterations. A page whose loop does not exit
      stops the document there, as the program would never reach the next
      page. */
  function DocumentRun(pages: seq<string>, config: PdfConfig, fuel: nat): Run
    requires config.chunkSize >= 1
  {
    if pages == [] then Run([], true)
    else
      var prev := DocumentRun(pages[..|pages| - 1], config, fuel);
      var last := pages[|pages| - 1];
      if !prev.finished || IsBlank(last) then prev
      else
        var page := RunPage(last, |pages|, config, fuel);
        Run(prev.chunks + page.chunks, page.finished)
  }

  /** `_process_pdf_with_pages` over the extracted page texts. */
  method ProcessPdfWithPagesAsWritten(pages: seq<string>, config: PdfConfig, fuel: nat)
    returns (chunks: seq<PageAwareChunk>, finished: bool)
    requires config.chunkSize >= 1
    ensures Run(chunks, finished) == DocumentRun(pages, config, fuel)
  {
    chunks, finished := [], true;
    for i := 0 to |pages|
      invariant Run(chunks, finished) == DocumentRun(pages[..i], config, fuel)
    {
      assert pages[..i + 1][..i] == pages[..i];
      if !finished {
        continue;
      }
      var pageText := pages[i];
      if IsBlank(pageText) {
        continue;
      }
      var pageChunks, pageFinished := ChunkPageAsWritten(pageText, i + 1, config, fuel);
      chunks, finished := chunks + pageChunks, pageFinished;
    }
    assert pages[..|pages|] == pages;
  }

  /** A chunk names an existing page that is not blank. */
  predicate FromNonBlankPage(c: PageAwareChunk, pages: seq<string>) {
    1 <= c.pageNumber <= |pages| && !IsBlank(pages[c.pageNumber - 1])
  }

  /** Whitespace-only pages contribute nothing; every chunk carries the
      1-based number of a non-blank page. */
  lemma {:induction false} DocumentRunPages(pages: seq<string>, config: PdfConfig, fuel: nat)
    requires config.chunkSize >= 1
    ensures forall i :: 0 <= i < |DocumentRun(pages, config, fuel).chunks| ==>
      FromNonBlankPage(DocumentRun(pages, config, fuel).chunks[i], pages)
  {
    if pages != [] {
      var n := |pages|;
      var front, last := pages[..n - 1], pages[n - 1];
      var prev := DocumentRun(front, config, fuel).chunks;
      assert forall i :: 0 <= i < |prev| ==> FromNonBlankPage(prev[i], front) by {
        DocumentRunPages(front, config, fuel);
      }
      if DocumentRun(front, config, fuel).finished && !IsBlank(last) {
        var here := RunPage(last, n, config, fuel).chunks;
        assert forall i :: 0 <= i < |here| ==> here[i].pageNumber == n by {
          RunPageNumbers(last, n, config, fuel);
        }
        AppendPages(prev, here, pages);
      } else {
        AppendPages(prev, [], pages);
        assert prev + [] == prev;
      }
    }
  }

  /** Every chunk of a page's loop carries that page's number. */
  lemma RunPageNumbers(page: string, pageNum: int, config: PdfConfig, fuel: nat)
    requires config.chunkSize >= 1
    ensures forall i :: 0 <= i < |RunPage(page, pageNum, config, fuel).chunks| ==>
      RunPage(page, pageNum, config, fuel).chunks[i].pageNumber == pageNum
  {
  }

  /** The chunks of the pages before the last, then chunks of the last page
      if it is not blank, all come from non-blank pages. */
  lemma AppendPages(prev: seq<PageAwareChunk>, here: seq<PageAwareChunk>, pages: seq<string>)
    requires pages != []
    requires forall i :: 0 <= i < |prev| ==> FromNonBlankPage(prev[i], pages[..|pages| - 1])
    requires here != [] ==> !IsBlank(pages[|pages| - 1])
    requires forall i :: 0 <= i < |here| ==> here[i].pageNumber == |pages|
    ensures forall i :: 0 <= i < |prev + here| ==> FromNonBlankPage((prev + here)[i], pages)
  {
    var cs := prev + here;
    forall i | 0 <= i < |cs| ensures FromNonBlankPage(cs[i], pages) {
      if i >= |prev| {
        assert cs[i] == here[i - |prev|];
      } else {
        assert cs[i] == prev[i];
        assert pages[prev[i].pageNumber - 1] == pages[..|pages| - 1][prev[i].pageNumber - 1];
      }
    }
  }

  /** With a positive overlap, a document with any non-blank page never
      finishes. */
  lemma {:induction false} DocumentRunDiverges(pages: seq<string>, config: PdfConfig, fuel: nat, k: nat)
    requires config.chunkSize >= 1 && config.chunkOverlap > 0
    requires k < |pages| && !IsBlank(pages[k])
    ensures !DocumentRun(pages, config, fuel).finished
  {
    var n := |pages|;
    var front, last := pages[..n - 1], pages[n - 1];
    if k < n - 1 {
      assert front[k] == pages[k];
      DocumentRunDiverges(front, config, fuel, k);
    } else if DocumentRun(front, config, fuel).finished {
      AsWrittenNeverFinishes(last, n, config, fuel);
    }
  }

  // ---------------------------------------------------------------------
  // The corrected loop: the progress guard added, nothing else changed.

  /** The page-aware loop with the progress guard of `processor.py:46-49`
      added and nothing else changed: every window's chunk is kept, blank
      ones too, and `chunk_overlap` is used as given. */
  function GuardedPageChunks(page: string, pageNum: int, config: PdfConfig): seq<PageAwareChunk>
    requires config.chunkSize >= 1
  {
    Chunkify(page, pageNum, SpansOf(PdfProcessor.WindowsFrom(page, config.chunkSize, config.chunkOverlap, 0)))
  }

  /** The corrected page loop: pages in order, numbered from 1, blank pages
      skipped. */
  function GuardedDocumentChunks(pages: seq<string>, config: PdfConfig): seq<PageAwareChunk>
    requires config.chunkSize >= 1
  {
    if pages == [] then []
    else
      var last := pages[|pages| - 1];
      GuardedDocumentChunks(pages[..|pages| - 1], config)
      + (if IsBlank(last) then [] else GuardedPageChunks(last, |pages|, config))
  }

  /** One iteration of the corrected loop keeps the visited spans followed
      by the spans still to come equal to all the windows' spans. */
  lemma GuardedStep(page: string, size: int, overlap: int, start: nat, end: nat, next: nat, spans: seq<Span>, whole: seq<Span>)
    requires size >= 1 && start < |page|
    requires end == PdfProcessor.WindowEnd(page, start, size) && next == PdfProcessor.NextStart(start, end, overlap)
    requires spans + SpansOf(PdfProcessor.WindowsFrom(page, size, overlap, start)) == whole
    ensures (spans + [Span(start, end)]) + SpansOf(PdfProcessor.WindowsFrom(page, size, overlap, next)) == whole
  {
    var rest := PdfProcessor.WindowsFrom(page, size, overlap, next);
    PdfProcessor.WindowsFromStep(page, size, overlap, start);
    SpansOfCons(PdfProcessor.Window(start, end), rest);
    PdfProcessor.AppendShift(spans, [Span(start, end)], SpansOf(rest), spans + [Span(start, end)], whole);
  }

  /** The per-page loop of lines 59-86 with the progress guard: when
      `end - chunk_overlap` would not move the cursor forward, it moves to
      `end`. */
  method ChunkPageGuarded(pageText: string, pageNum: int, config: PdfConfig) returns (chunks: seq<PageAwareChunk>)
    requires config.chunkSize >= 1
    ensures chunks == GuardedPageChunks(pageText, pageNum, config)
  {
    var size, overlap := config.chunkSize, config.chunkOverlap;
    ghost var whole := SpansOf(PdfProcessor.WindowsFrom(pageText, size, overlap, 0));
    ghost var spans: seq<Span> := [];
    chunks := [];
    var start: nat := 0;
    while start < |pageText|
      invariant spans + SpansOf(PdfProcessor.WindowsFrom(pageText, size, overlap, start)) == whole
      invariant chunks == Chunkify(pageText, pageNum, spans)
      decreases |pageText| - start
    {
      var end := PdfProcessor.WindowEnd(pageText, start, size);
      chunks := AppendChunk(chunks, pageText, pageNum, start, end, spans);
      var next := end - overlap;
      if next <= start {
        next := end;
      }
      GuardedStep(pageText, size, overlap, start, end, next, spans, whole);
      spans := spans + [Span(start, end)];
      start := next;
    }
    assert spans == whole;
  }

  /** `_process_pdf_with_pages` with the corrected per-page loop. */
  method ProcessPdfWithPages(pages: seq<string>, config: PdfConfig) returns (chunks: seq<PageAwareChunk>)
    requires config.chunkSize >= 1
    ensures chunks == GuardedDocumentChunks(pages, config)
  {
    chunks := [];
    for i := 0 to |pages|
      invariant chunks == GuardedDocumentChunks(pages[..i], config)
    {
      assert pages[..i + 1][..i] == pages[..i];
      var pageText := pages[i];
      if IsBlank(pageText) {
        continue;
      }
      var pageChunks := ChunkPageGuarded(pageText, i + 1, config);
      chunks := chunks + pageChunks;
    }
    assert pages[..|pages|] == pages;
  }

  /** `process_pdf` (lines 25-38): the texts of the page-aware chunks, in
      order, with the corrected loop. */
  method ProcessPdf(pages: seq<string>, config: PdfConfig) returns (texts: seq<string>)
    requires config.chunkSize >= 1
    ensures texts == ChunkTexts(GuardedDocumentChunks(pages, config))
  {
    var chunks := ProcessPdfWithPages(pages, config);
    texts := ChunkTexts(chunks);
  }

  /** Where the original loop exits by itself on a page (`chunk_overlap <= 0`
      and enough iterations), it emits exactly the corrected loop's chunks:
      the guard never fires there. */
  lemma GuardedPageAgrees(page: string, pageNum: int, config: PdfConfig, fuel: nat)
    requires config.chunkSize >= 1 && config.chunkOverlap <= 0 && fuel >= |page|
    ensures RunPage(page, pageNum, config, fuel) == Run(GuardedPageChunks(page, pageNum, config), true)
  {
    WalkTerminates(page, config.chunkSize, config.chunkOverlap, 0, fuel);
    WalkIsWindows(page, config.chunkSize, config.chunkOverlap, 0, fuel);
  }

  /** No page is longer than `fuel`. */
  predicate PagesWithin(pages: seq<string>, fuel: nat) {
    forall i :: 0 <= i < |pages| ==> |pages[i]| <= fuel
  }

  /** Over a whole document the same holds: with `chunk_overlap <= 0` and
      enough iterations per page, the original page loop finishes with the
      corrected loop's chunks, blank-window `""` chunks included. */
  lemma {:induction false} GuardedAgreesAsWritten(pages: seq<string>, config: PdfConfig, fuel: nat)
    requires config.chunkSize >= 1 && config.chunkOverlap <= 0 && PagesWithin(pages, fuel)
    ensures DocumentRun(pages, config, fuel) == Run(GuardedDocumentChunks(pages, config), true)
  {
    if pages != [] {
      var n := |pages|;
      var front, last := pages[..n - 1], pages[n - 1];
      assert PagesWithin(front, fuel) by {
        forall i | 0 <= i < |front| ensures |front[i]| <= fuel {
          assert front[i] == pages[i];
        }
      }
      GuardedAgreesAsWritten(front, config, fuel);
      if !IsBlank(last) {
        GuardedPageAgrees(last, n, config, fuel);
      } else {
        assert GuardedDocumentChunks(front, config) + [] == GuardedDocumentChunks(front, config);
      }
    }
  }

  /** Dropping the `""` chunks of the corrected loop gives the guarded
      chunker of `processor.py` on the same page, whenever that chunker does
      not cap the overlap at `chunk_size // 2`: blank windows are the only
      other difference. */
  lemma GuardedPageNonEmpty(page: string, pageNum: int, config: PdfConfig)
    requires config.chunkSize >= 1 && PdfProcessor.EffectiveOverlap(config) == config.chunkOverlap
    ensures NonEmpty(GuardedPageChunks(page, pageNum, config)) == PdfProcessor.PageChunks(page, pageNum, config)
  {
    NonEmptyOfWindows(page, pageNum, PdfProcessor.WindowsFrom(page, config.chunkSize, config.chunkOverlap, 0));
  }

  /** Dropping empty chunks distributes over concatenation. */
  lemma {:induction false} NonEmptyAppend(a: seq<PageAwareChunk>, b: seq<PageAwareChunk>)
    ensures NonEmpty(a + b) == NonEmpty(a) + NonEmpty(b)
  {
    if a != [] {
      assert (a + b)[1..] == a[1..] + b;
      NonEmptyAppend(a[1..], b);
      calc {
        NonEmpty(a + b);
        Keep(a[0]) + NonEmpty(a[1..] + b);
        Keep(a[0]) + (NonEmpty(a[1..]) + NonEmpty(b));
        (Keep(a[0]) + NonEmpty(a[1..])) + NonEmpty(b);
      }
    } else {
      assert a + b == b;
    }
  }

  /** The same over a whole document. */
  lemma {:induction false} GuardedDocumentNonEmpty(pages: seq<string>, config: PdfConfig)
    requires config.chunkSize >= 1 && PdfProcessor.EffectiveOverlap(config) == config.chunkOverlap
    ensures NonEmpty(GuardedDocumentChunks(pages, config)) == PdfProcessor.DocumentChunks(pages, config)
  {
    if pages != [] {
      var n := |pages|;
      var front, last := pages[..n - 1], pages[n - 1];
      var here := if IsBlank(last) then [] else GuardedPageChunks(last, n, config);
      GuardedDocumentNonEmpty(front, config);
      NonEmptyAppend(GuardedDocumentChunks(front, config), here);
      if !IsBlank(last) {
        GuardedPageNonEmpty(last, n, config);
      }
    }
  }

  /** Every chunk of the corrected loop on a page is valid for it, its text
      possibly empty, and the starts strictly increase. */
  lemma GuardedPageValid(page: string, pageNum: int, config: PdfConfig)
    requires config.chunkSize >= 1
    ensures forall i :: 0 <= i < |GuardedPageChunks(page, pageNum, config)| ==>
      OriginalChunkValid(GuardedPageChunks(page, pageNum, config)[i], page, pageNum, config.chunkSize)
    ensures forall i :: 0 <= i < |GuardedPageChunks(page, pageNum, config)| - 1 ==>
      GuardedPageChunks(page, pageNum, config)[i].startChar < GuardedPageChunks(page, pageNum, config)[i + 1].startChar
  {
    var ws := PdfProcessor.WindowsFrom(page, config.chunkSize, config.chunkOverlap, 0);
    PdfProcessor.WindowsChain(page, config.chunkSize, config.chunkOverlap, 0);
    var cs := GuardedPageChunks(page, pageNum, config);
    forall i | 0 <= i < |cs| ensures OriginalChunkValid(cs[i], page, pageNum, config.chunkSize) {
      assert cs[i] == OriginalChunk(page, pageNum, ws[i].start, ws[i].end);
    }
  }

  /** A chunk of the corrected loop names an existing non-blank page and is
      valid for it. */
  predicate GuardedInDocument(c: PageAwareChunk, pages: seq<string>, size: int) {
    FromNonBlankPage(c, pages) && OriginalChunkValid(c, pages[c.pageNumber - 1], c.pageNumber, size)
  }

  /** Every chunk of the corrected page loop names an existing non-blank
      page, numbered from 1, and is valid for that page. */
  lemma {:induction false} GuardedDocumentValid(pages: seq<string>, config: PdfConfig)
    requires config.chunkSize >= 1
    ensures forall i :: 0 <= i < |GuardedDocumentChunks(pages, config)| ==>
      GuardedInDocument(GuardedDocumentChunks(pages, config)[i], pages, config.chunkSize)
  {
    if pages != [] {
      var n, size := |pages|, config.chunkSize;
      var front, last := pages[..n - 1], pages[n - 1];
      var earlier := GuardedDocumentChunks(front, config);
      var here := if IsBlank(last) then [] else GuardedPageChunks(last, n, config);
      GuardedDocumentValid(front, config);
      if !IsBlank(last) {
        GuardedPageValid(last, n, config);
      }
      GuardedAppendPage(earlier, here, pages, size);
    }
  }

  /** The chunks of the earlier pages, then those of the last page, are all
      in the document. */
  lemma GuardedAppendPage(earlier: seq<PageAwareChunk>, here: seq<PageAwareChunk>, pages: seq<string>, size: int)
    requires pages != []
    requires forall i :: 0 <= i < |earlier| ==> GuardedInDocument(earlier[i], pages[..|pages| - 1], size)
    requires here != [] ==> !IsBlank(pages[|pages| - 1])
    requires forall i :: 0 <= i < |here| ==> OriginalChunkValid(here[i], pages[|pages| - 1], |pages|, size)
    ensures forall i :: 0 <= i < |earlier + here| ==> GuardedInDocument((earlier + here)[i], pages, size)
  {
    var cs := earlier + here;
    forall i | 0 <= i < |cs| ensures GuardedInDocument(cs[i], pages, size) {
      if i >= |earlier| {
        assert cs[i] == here[i - |earlier|];
      } else {
        assert cs[i] == earlier[i];
        assert pages[earlier[i].pageNumber - 1] == pages[..|pages| - 1][earlier[i].pageNumber - 1];
      }
    }
  }

  /** Every text `process_pdf` returns is at most `chunk_size` long. */
  lemma ProcessPdfTexts(pages: seq<string>, config: PdfConfig)
    requires config.chunkSize >= 1
    ensures forall i :: 0 <= i < |ChunkTexts(GuardedDocumentChunks(pages, config))| ==>
      |ChunkTexts(GuardedDocumentChunks(pages, config))[i]| <= config.chunkSize
  {
    var cs := GuardedDocumentChunks(pages, config);
    GuardedDocumentValid(pages, config);
    forall i | 0 <= i < |cs| ensures |ChunkTexts(cs)[i]| <= config.chunkSize {
      assert GuardedInDocument(cs[i], pages, config.chunkSize);
    }
  }

  /** The chunk mentions the (already lower-cased) topic, ignoring ASCII case. */
  predicate Mentions(c: PageAwareChunk, topic: string) {
    Contains(Lower(c.text), topic)
  }

  /** A set that is not empty has an element. */
  lemma HasElement(s: set<int>)
    requires s != {}
    ensures exists y :: y in s
  {
    if forall y :: y !in s {
      assert false;
    }
  }

  /** Some element of `s` is no greater than all of them. */
  lemma {:induction false} MinExists(s: set<int>)
    requires s != {}
    ensures exists m :: m in s && forall x :: x in s ==> m <= x
    decreases |s|
  {
    HasElement(s);
    var y :| y in s;
    if s == {y} {
      assert forall x :: x in s ==> y <= x;
    } else {
      var t := s - {y};
      MinExists(t);
      var m :| m in t && forall x :: x in t ==> m <= x;
      var least := if y < m then y else m;
      forall x | x in s ensures least <= x {
        if x != y {
          assert x in t;
        }
      }
      assert least in s;
    }
  }

  /** `sorted(list(s))` for a set of integers. */
  method SortedList(s: set<int>) returns (r: seq<int>)
    ensures forall i, j :: 0 <= i < j < |r| ==> r[i] < r[j]
    ensures forall x :: x in r <==> x in s
  {
    r := [];
    var rest := s;
    while rest != {}
      invariant forall x :: x in s <==> x in r || x in rest
      invariant forall x :: x in r ==> x !in rest
      invariant forall i, j :: 0 <= i < j < |r| ==> r[i] < r[j]
      invariant forall i, x :: 0 <= i < |r| && x in rest ==> r[i] < x
      decreases |rest|
    {
      MinExists(rest);
      var m :| m in rest && forall x :: x in rest ==> m <= x;
      r := r + [m];
      rest := rest - {m};
    }
  }

  /** `find_topic_pages` (lines 112-129): the pages, ascending and without
      repeats, of the chunks whose lower-cased text contains the lower-cased
      topic. */
  method FindTopicPages(chunks: seq<PageAwareChunk>, topicText: string) returns (pages: seq<int>)
    ensures forall i, j :: 0 <= i < j < |pages| ==> pages[i] < pages[j]
    ensures forall p :: p in pages <==>
      exists c :: c in chunks && c.pageNumber == p && Mentions(c, Lower(topicText))
  {
    var topicPages: set<int> := {};
    var topic := Lower(topicText);
    for i := 0 to |chunks|
      invariant forall p :: p in topicPages <==>
        exists k :: 0 <= k < i && chunks[k].pageNumber == p && Mentions(chunks[k], topic)
    {
      if Contains(Lower(chunks[i].text), topic) {
        topicPages := topicPages + {chunks[i].pageNumber};
      }
    }
    pages := SortedList(topicPages);
    forall p | p in pages
      ensures exists c :: c in chunks && c.pageNumber == p && Mentions(c, topic)
    {
      var k :| 0 <= k < |chunks| && chunks[k].pageNumber == p && Mentions(chunks[k], topic);
      assert chunks[k] in chunks;
    }
    forall p | exists c :: c in chunks && c.pageNumber == p && Mentions(c, topic)
      ensures p in pages
    {
      var c :| c in chunks && c.pageNumber == p && Mentions(c, topic);
      var k :| 0 <= k < |chunks| && chunks[k] == c;
    }
  }
}
