/** The guarded page-aware chunker (`process_pdf_sync`): each non-blank page
    is cut into windows of at most `chunk_size` characters, a cut is moved
    back to a paragraph or sentence break past the window's midpoint, blank
    windows are dropped, and the cursor always moves forward. */
module PdfProcessor {
  import opened PyStr
  import opened PdfBase

  /** A raw `[start, end)` span of a page visited by the loop. */
  datatype Window = Window(start: nat, end: nat)

  /** `min(chunk_overlap, chunk_size // 2)` */
  function EffectiveOverlap(config: PdfConfig): (overlap: int)
    requires config.chunkSize >= 1
    ensures overlap <= config.chunkOverlap && overlap <= config.chunkSize / 2
    ensures overlap == config.chunkOverlap || overlap == config.chunkSize / 2
  {
    if config.chunkOverlap <= config.chunkSize / 2 then config.chunkOverlap else config.chunkSize / 2
  }

  /** The paragraph break `"\n\n"` that ends a window cut at `end` lies past
      the midpoint, and no later one fits in the raw window. */
  predicate ParagraphCut(page: string, start: nat, size: int, end: int) {
    OccursAt(page, "\n\n", end - 2) && end - 2 > start + size / 2 && end <= start + size
    && forall p :: end - 2 < p && p + 2 <= start + size ==> !OccursAt(page, "\n\n", p)
  }

  /** No paragraph break fits in the raw window past its midpoint. */
  predicate NoParagraphPastMid(page: string, start: nat, size: int) {
    forall p :: start + size / 2 < p && p + 2 <= start + size ==> !OccursAt(page, "\n\n", p)
  }

  /** The sentence break `". "` whose period ends a window cut at `end` lies
      past the midpoint, and no later one fits in the raw window. */
  predicate SentenceCut(page: string, start: nat, size: int, end: int) {
    OccursAt(page, ". ", end - 1) && end - 1 > start + size / 2 && end + 1 <= start + size
    && forall q :: end - 1 < q && q + 2 <= start + size ==> !OccursAt(page, ". ", q)
  }

  /** No sentence break fits in the raw window past its midpoint. */
  predicate NoSentencePastMid(page: string, start: nat, size: int) {
    forall q :: start + size / 2 < q && q + 2 <= start + size ==> !OccursAt(page, ". ", q)
  }

  /** Where the window that starts at `start` is cut. */
  function WindowEnd(page: string, start: nat, size: int): (end: nat)
    requires size >= 1 && start < |page|
    ensures start < end <= |page|
    ensures end - start <= size
  {
    var end0 := if start + size < |page| then start + size else |page|;
    if end0 < |page| then
      var paraBreak := RFind(page, "\n\n", start, end0);
      if paraBreak != -1 && paraBreak > start + size / 2 then paraBreak + 2
      else
        var sentBreak := RFind(page, ". ", start, end0);
        if sentBreak != -1 && sentBreak > start + size / 2 then sentBreak + 1
        else end0
    else end0
  }

  /** What `rfind` tells about the last occurrence of `pat` inside the raw
      window `[start, end0)` compared with the window's midpoint `mid`. */
  lemma RFindPastMid(page: string, pat: string, start: nat, end0: nat, mid: int)
    requires start <= mid && start <= end0 <= |page|
    ensures var r := RFind(page, pat, start, end0);
      && (r != -1 && r > mid ==>
            OccursAt(page, pat, r) && r + |pat| <= end0
            && forall k :: r < k && k + |pat| <= end0 ==> !OccursAt(page, pat, k))
      && (!(r != -1 && r > mid) ==>
            forall k :: mid < k && k + |pat| <= end0 ==> !OccursAt(page, pat, k))
  {
    assert SliceIndex(start, |page|) == start && SliceIndex(end0, |page|) == end0;
  }

  /** The cut, described without the search: the final window runs to the end
      of the page; any other window ends just after the last paragraph break
      past its midpoint, else just after the period of the last sentence break
      past its midpoint, else at the raw budget `start + size`. */
  lemma WindowEndCases(page: string, start: nat, size: int)
    requires size >= 1 && start < |page|
    ensures var end := WindowEnd(page, start, size);
      && (start + size >= |page| ==> end == |page|)
      && (start + size < |page| ==>
            || ParagraphCut(page, start, size, end)
            || (NoParagraphPastMid(page, start, size) && SentenceCut(page, start, size, end))
            || (NoParagraphPastMid(page, start, size) && NoSentencePastMid(page, start, size)
                && end == start + size))
  {
    if start + size < |page| {
      var mid := start + size / 2;
      var p := RFind(page, "\n\n", start, start + size);
      var q := RFind(page, ". ", start, start + size);
      if p != -1 && p > mid {
        ParagraphCase(page, start, size, p);
      } else {
        NoBreakCase(page, "\n\n", start, size, p);
        if q != -1 && q > mid {
          SentenceCase(page, start, size, q);
        } else {
          NoBreakCase(page, ". ", start, size, q);
        }
      }
    }
  }

  /** The last paragraph break of the raw window lies past the midpoint: the
      window is cut just after it. */
  lemma ParagraphCase(page: string, start: nat, size: int, p: int)
    requires size >= 1 && start + size < |page|
    requires p == RFind(page, "\n\n", start, start + size) && p != -1 && p > start + size / 2
    ensures ParagraphCut(page, start, size, p + 2)
  {
    RFindPastMid(page, "\n\n", start, start + size, start + size / 2);
    assert p + 2 - 2 == p;
  }

  /** The last sentence break of the raw window lies past the midpoint: the
      window is cut just after its period. */
  lemma SentenceCase(page: string, start: nat, size: int, q: int)
    requires size >= 1 && start + size < |page|
    requires q == RFind(page, ". ", start, start + size) && q != -1 && q > start + size / 2
    ensures SentenceCut(page, start, size, q + 1)
  {
    RFindPastMid(page, ". ", start, start + size, start + size / 2);
    assert q + 1 - 1 == q;
  }

  /** The last occurrence of `pat` in the raw window is not past the
      midpoint: no occurrence past the midpoint fits in the window. */
  lemma NoBreakCase(page: string, pat: string, start: nat, size: int, r: int)
    requires size >= 1 && start + size < |page|
    requires r == RFind(page, pat, start, start + size) && !(r != -1 && r > start + size / 2)
    ensures forall k :: start + size / 2 < k && k + |pat| <= start + size ==> !OccursAt(page, pat, k)
  {
    RFindPastMid(page, pat, start, start + size, start + size / 2);
  }

  /** Lines 46-49: move back by the overlap, unless that would not move forward. */
  function NextStart(start: nat, end: nat, overlap: int): (next: nat)
    ensures next > start || next == end
  {
    if end - overlap <= start then end else end - overlap
  }

  /** The windows the loop visits from cursor `start` on, skipped ones included. */
  function WindowsFrom(page: string, size: int, overlap: int, start: nat): (ws: seq<Window>)
    requires size >= 1
    ensures forall i :: 0 <= i < |ws| ==>
      start <= ws[i].start < ws[i].end <= |page| && ws[i].end - ws[i].start <= size
    decreases |page| - start
  {
    if start >= |page| then []
    else
      var end := WindowEnd(page, start, size);
      var next := NextStart(start, end, overlap);
      assert next > start;
      [Window(start, end)] + WindowsFrom(page, size, overlap, next)
  }

  /** The chunks made from a list of windows: the stripped text of each window,
      windows whose stripped text is empty being dropped. */
  function ChunksOfWindows(page: string, pageNum: int, ws: seq<Window>): seq<PageAwareChunk>
    requires forall i :: 0 <= i < |ws| ==> ws[i].start <= ws[i].end <= |page|
  {
    if ws == [] then []
    else
      var text := Strip(page[ws[0].start..ws[0].end]);
      (if text == [] then [] else [PageAwareChunk(text, pageNum, ws[0].start, ws[0].end)])
      + ChunksOfWindows(page, pageNum, ws[1..])
  }

  /** The chunks the loop emits from cursor `start` on, one window at a time. */
  function ChunksFrom(page: string, pageNum: int, size: int, overlap: int, start: nat): seq<PageAwareChunk>
    requires size >= 1
    decreases |page| - start
  {
    if start >= |page| then []
    else
      var end := WindowEnd(page, start, size);
      var text := Strip(page[start..end]);
      (if text == [] then [] else [PageAwareChunk(text, pageNum, start, end)])
      + ChunksFrom(page, pageNum, size, overlap, NextStart(start, end, overlap))
  }

  /** The chunks of one page, numbered `pageNum`. */
  function PageChunks(page: string, pageNum: int, config: PdfConfig): seq<PageAwareChunk>
    requires config.chunkSize >= 1
  {
    ChunksOfWindows(page, pageNum, WindowsFrom(page, config.chunkSize, EffectiveOverlap(config), 0))
  }

  /** The chunks of a whole document: the pages in order, numbered from 1,
      blank pages skipped. */
  function DocumentChunks(pages: seq<string>, config: PdfConfig): seq<PageAwareChunk>
    requires config.chunkSize >= 1
  {
    if pages == [] then []
    else
      var last := pages[|pages| - 1];
      DocumentChunks(pages[..|pages| - 1], config)
      + (if IsBlank(last) then [] else PageChunks(last, |pages|, config))
  }

  /** What every chunk promises about the page it was cut from. */
  predicate ValidChunk(c: PageAwareChunk, page: string, size: int) {
    && 0 <= c.startChar < c.endChar <= |page|
    && c.endChar - c.startChar <= size
    && c.text == Strip(page[c.startChar..c.endChar])
    && c.text != []
    && |c.text| <= size
  }

  /** Every chunk of `cs` is valid for `page` and carries its number. */
  predicate ChunksOfPage(cs: seq<PageAwareChunk>, page: string, pageNum: int, size: int) {
    forall i :: 0 <= i < |cs| ==> cs[i].pageNumber == pageNum && ValidChunk(cs[i], page, size)
  }

  /** The chunks' `start_char` values strictly increase. */
  predicate StartsAscending(cs: seq<PageAwareChunk>) {
    forall i, j :: 0 <= i < j < |cs| ==> cs[i].startChar < cs[j].startChar
  }

  /** Every non-whitespace character of `page` lies in the span of some chunk. */
  predicate CoversContent(cs: seq<PageAwareChunk>, page: string) {
    forall k :: 0 <= k < |page| && !IsSpace(page[k]) ==> SpanCovers(cs, k)
  }

  /** Position `k` lies in the span of some chunk of `cs`. */
  predicate SpanCovers(cs: seq<PageAwareChunk>, k: int) {
    exists i :: 0 <= i < |cs| && cs[i].startChar <= k < cs[i].endChar
  }

  /** Position `k` lies in some window of `ws`. */
  predicate WindowCovers(ws: seq<Window>, k: int) {
    exists i :: 0 <= i < |ws| && ws[i].start <= k < ws[i].end
  }

  /** The windows' starts strictly increase. */
  predicate WindowsAscending(ws: seq<Window>) {
    forall i :: 0 <= i < |ws| - 1 ==> ws[i].start < ws[i + 1].start
  }

  /** Each window starts no later than the previous one ends. */
  predicate WindowsOverlapOrTouch(ws: seq<Window>) {
    forall i :: 0 <= i < |ws| - 1 ==> ws[i + 1].start <= ws[i].end
  }

  /** One step of the loop, as an equation on the window lists. */
  lemma WindowsFromStep(page: string, size: int, overlap: int, start: nat)
    requires size >= 1 && start < |page|
    ensures WindowsFrom(page, size, overlap, start)
         == [Window(start, WindowEnd(page, start, size))]
            + WindowsFrom(page, size, overlap, NextStart(start, WindowEnd(page, start, size), overlap))
  {
  }

  /** One step of the loop, as an equation on the chunk lists: the chunk of
      the window at `start`, if its text is not blank, then the chunks from
      the next cursor on. */
  lemma ChunksStep(page: string, pageNum: int, size: int, overlap: int, start: nat)
    requires size >= 1 && start < |page|
    ensures var end := WindowEnd(page, start, size);
      ChunksOfWindows(page, pageNum, WindowsFrom(page, size, overlap, start))
      == (if Strip(page[start..end]) == [] then [] else [PageAwareChunk(Strip(page[start..end]), pageNum, start, end)])
         + ChunksOfWindows(page, pageNum, WindowsFrom(page, size, overlap, NextStart(start, end, overlap)))
  {
    var end := WindowEnd(page, start, size);
    WindowsFromStep(page, size, overlap, start);
    ChunksOfWindowsCons(page, pageNum, Window(start, end), WindowsFrom(page, size, overlap, NextStart(start, end, overlap)));
  }

  /** The first step of `ChunksFrom`, as an equation. */
  lemma ChunksFromStep(page: string, pageNum: int, size: int, overlap: int, start: nat, end: nat)
    requires size >= 1 && start < |page| && end == WindowEnd(page, start, size)
    ensures ChunksFrom(page, pageNum, size, overlap, start)
         == (if Strip(page[start..end]) == [] then [] else [PageAwareChunk(Strip(page[start..end]), pageNum, start, end)])
            + ChunksFrom(page, pageNum, size, overlap, NextStart(start, end, overlap))
  {
  }

  /** Moving the next piece from the pending list to the emitted list keeps
      their concatenation. */
  lemma AppendShift<T>(before: seq<T>, piece: seq<T>, rest: seq<T>, after: seq<T>, whole: seq<T>)
    requires before + (piece + rest) == whole
    requires after == before + piece || (piece == [] && after == before)
    ensures after + rest == whole
  {
    assert before + (piece + rest) == (before + piece) + rest;
    assert before + [] == before;
  }

  /** Emitting chunk by chunk is cutting all windows first and then turning
      each into a chunk. */
  lemma {:induction false} ChunksFromWindows(page: string, pageNum: int, size: int, overlap: int, start: nat)
    requires size >= 1
    ensures ChunksFrom(page, pageNum, size, overlap, start)
         == ChunksOfWindows(page, pageNum, WindowsFrom(page, size, overlap, start))
    decreases |page| - start
  {
    if start < |page| {
      var end := WindowEnd(page, start, size);
      ChunksFromWindows(page, pageNum, size, overlap, NextStart(start, end, overlap));
      ChunksStep(page, pageNum, size, overlap, start);
    }
  }

  /** One window less: the chunks of `[w] + ws`. */
  lemma ChunksOfWindowsCons(page: string, pageNum: int, w: Window, ws: seq<Window>)
    requires w.start <= w.end <= |page|
    requires forall i :: 0 <= i < |ws| ==> ws[i].start <= ws[i].end <= |page|
    ensures ChunksOfWindows(page, pageNum, [w] + ws)
         == (if Strip(page[w.start..w.end]) == [] then []
             else [PageAwareChunk(Strip(page[w.start..w.end]), pageNum, w.start, w.end)])
            + ChunksOfWindows(page, pageNum, ws)
  {
    assert ([w] + ws)[1..] == ws;
  }

  /** The chunks of a window list are valid for the page and carry its number. */
  lemma {:induction false} ChunksOfWindowsValid(page: string, pageNum: int, size: int, ws: seq<Window>)
    requires forall i :: 0 <= i < |ws| ==>
      ws[i].start < ws[i].end <= |page| && ws[i].end - ws[i].start <= size
    ensures ChunksOfPage(ChunksOfWindows(page, pageNum, ws), page, pageNum, size)
  {
    if ws != [] {
      var w, rest := ws[0], ws[1..];
      ChunksOfWindowsValid(page, pageNum, size, rest);
      assert ws == [w] + rest;
      ChunksOfWindowsCons(page, pageNum, w, rest);
    }
  }

  /** Every chunk starts where one of the windows starts, so at or after `lo`
      when all windows do. */
  lemma {:induction false} ChunksStartFrom(page: string, pageNum: int, ws: seq<Window>, lo: int)
    requires forall i :: 0 <= i < |ws| ==> lo <= ws[i].start <= ws[i].end <= |page|
    ensures forall i :: 0 <= i < |ChunksOfWindows(page, pageNum, ws)| ==>
      lo <= ChunksOfWindows(page, pageNum, ws)[i].startChar
  {
    if ws != [] {
      var w, rest := ws[0], ws[1..];
      ChunksStartFrom(page, pageNum, rest, lo);
      assert ws == [w] + rest;
      ChunksOfWindowsCons(page, pageNum, w, rest);
    }
  }

  lemma {:induction false} StartsIncrease(ws: seq<Window>, i: nat, j: nat)
    requires WindowsAscending(ws)
    requires i < j < |ws|
    ensures ws[i].start < ws[j].start
    decreases j - i
  {
    if i + 1 < j {
      StartsIncrease(ws, i + 1, j);
    }
  }

  /** Windows with strictly increasing starts give chunks with strictly
      increasing `start_char`. */
  lemma {:induction false} ChunksOfWindowsOrdered(page: string, pageNum: int, ws: seq<Window>)
    requires forall i :: 0 <= i < |ws| ==> ws[i].start <= ws[i].end <= |page|
    requires WindowsAscending(ws)
    ensures StartsAscending(ChunksOfWindows(page, pageNum, ws))
  {
    if ws != [] {
      var w, rest := ws[0], ws[1..];
      ChunksOfWindowsOrdered(page, pageNum, rest);
      forall j | 0 <= j < |rest| ensures w.start + 1 <= rest[j].start {
        StartsIncrease(ws, 0, j + 1);
      }
      ChunksStartFrom(page, pageNum, rest, w.start + 1);
      assert ws == [w] + rest;
      ChunksOfWindowsCons(page, pageNum, w, rest);
    }
  }

  /** The windows move strictly forward; with a non-negative overlap each one
      starts no later than the previous one ends, the first starts at the
      cursor and the last ends at the end of the page. */
  lemma {:induction false} WindowsChain(page: string, size: int, overlap: int, start: nat)
    requires size >= 1
    ensures WindowsFrom(page, size, overlap, start) != [] <==> start < |page|
    ensures WindowsFrom(page, size, overlap, start) != [] ==>
      WindowsFrom(page, size, overlap, start)[0].start == start
    ensures WindowsAscending(WindowsFrom(page, size, overlap, start))
    ensures overlap >= 0 ==> WindowsOverlapOrTouch(WindowsFrom(page, size, overlap, start))
    ensures overlap >= 0 && WindowsFrom(page, size, overlap, start) != [] ==>
      WindowsFrom(page, size, overlap, start)[|WindowsFrom(page, size, overlap, start)| - 1].end == |page|
    decreases |page| - start
  {
    if start < |page| {
      var end := WindowEnd(page, start, size);
      var next := NextStart(start, end, overlap);
      WindowsChain(page, size, overlap, next);
      var rest := WindowsFrom(page, size, overlap, next);
      var ws := WindowsFrom(page, size, overlap, start);
      WindowsFromStep(page, size, overlap, start);
      assert ws == [Window(start, end)] + rest;
      if rest == [] && overlap >= 0 {
        assert next >= |page|;
        assert next <= end;
      }
    }
  }

  /** With a non-negative overlap the windows leave no gap: every position of
      the page from the cursor on lies in one of them. */
  lemma {:induction false} WindowsCover(page: string, size: int, overlap: int, start: nat, k: nat)
    requires size >= 1 && overlap >= 0
    requires start <= k < |page|
    ensures WindowCovers(WindowsFrom(page, size, overlap, start), k)
    decreases |page| - start
  {
    var end := WindowEnd(page, start, size);
    var next := NextStart(start, end, overlap);
    var rest := WindowsFrom(page, size, overlap, next);
    WindowsFromStep(page, size, overlap, start);
    if k >= end {
      WindowsCover(page, size, overlap, next, k);
      var i :| 0 <= i < |rest| && rest[i].start <= k < rest[i].end;
      assert ([Window(start, end)] + rest)[i + 1] == rest[i];
    } else {
      assert ([Window(start, end)] + rest)[0] == Window(start, end);
    }
  }

  /** A chunk in front keeps a covered position covered. */
  lemma SpanCoversAppend(head: seq<PageAwareChunk>, tail: seq<PageAwareChunk>, k: int)
    requires SpanCovers(tail, k)
    ensures SpanCovers(head + tail, k)
  {
    var i :| 0 <= i < |tail| && tail[i].startChar <= k < tail[i].endChar;
    assert (head + tail)[|head| + i] == tail[i];
  }

  /** Every non-whitespace character of a window lies inside the span of the
      chunk made from it, so no content is lost by skipping or stripping. */
  lemma {:induction false} ChunksCover(page: string, pageNum: int, ws: seq<Window>, j: nat, k: nat)
    requires forall i :: 0 <= i < |ws| ==> ws[i].start <= ws[i].end <= |page|
    requires j < |ws| && ws[j].start <= k < ws[j].end && !IsSpace(page[k])
    ensures SpanCovers(ChunksOfWindows(page, pageNum, ws), k)
  {
    var w, rest := ws[0], ws[1..];
    assert ws == [w] + rest;
    ChunksOfWindowsCons(page, pageNum, w, rest);
    var text := Strip(page[w.start..w.end]);
    var tail := ChunksOfWindows(page, pageNum, rest);
    if j == 0 {
      assert text != [] by {
        var slice := page[w.start..w.end];
        assert slice[k - w.start] == page[k];
      }
      var c := PageAwareChunk(text, pageNum, w.start, w.end);
      assert ([c] + tail)[0] == c;
    } else {
      ChunksCover(page, pageNum, rest, j - 1, k);
      SpanCoversAppend(if text == [] then [] else [PageAwareChunk(text, pageNum, w.start, w.end)], tail, k);
    }
  }

  /** The chunks of one page: all valid for that page and numbered with it,
      in strictly increasing order of `start_char`. */
  lemma PageChunksValid(page: string, pageNum: int, config: PdfConfig)
    requires config.chunkSize >= 1
    ensures ChunksOfPage(PageChunks(page, pageNum, config), page, pageNum, config.chunkSize)
    ensures StartsAscending(PageChunks(page, pageNum, config))
  {
    var size, overlap := config.chunkSize, EffectiveOverlap(config);
    var ws := WindowsFrom(page, size, overlap, 0);
    WindowsChain(page, size, overlap, 0);
    ChunksOfWindowsValid(page, pageNum, size, ws);
    ChunksOfWindowsOrdered(page, pageNum, ws);
  }

  /** With a non-negative overlap, the chunks of a page cover every
      non-whitespace character of it. */
  lemma PageChunksCover(page: string, pageNum: int, config: PdfConfig)
    requires config.chunkSize >= 1 && config.chunkOverlap >= 0
    ensures CoversContent(PageChunks(page, pageNum, config), page)
  {
    var size, overlap := config.chunkSize, EffectiveOverlap(config);
    var ws := WindowsFrom(page, size, overlap, 0);
    var cs := PageChunks(page, pageNum, config);
    forall k | 0 <= k < |page| && !IsSpace(page[k]) ensures SpanCovers(cs, k) {
      WindowsCover(page, size, overlap, 0, k);
      var j :| 0 <= j < |ws| && ws[j].start <= k < ws[j].end;
      ChunksCover(page, pageNum, ws, j, k);
    }
  }

  /** A blank page would yield no chunks even without the explicit skip. */
  lemma {:induction false} BlankWindowsNoChunks(page: string, pageNum: int, ws: seq<Window>)
    requires IsBlank(page)
    requires forall i :: 0 <= i < |ws| ==> ws[i].start <= ws[i].end <= |page|
    ensures ChunksOfWindows(page, pageNum, ws) == []
  {
    if ws != [] {
      var w := ws[0];
      var slice := page[w.start..w.end];
      assert forall k :: 0 <= k < |slice| ==> slice[k] == page[w.start + k];
      assert IsBlank(slice);
      BlankWindowsNoChunks(page, pageNum, ws[1..]);
    }
  }

  /** A chunk of a document names a page that exists and is not blank, and
      is valid for that page. */
  predicate InDocument(c: PageAwareChunk, pages: seq<string>, size: int) {
    && 1 <= c.pageNumber <= |pages|
    && !IsBlank(pages[c.pageNumber - 1])
    && ValidChunk(c, pages[c.pageNumber - 1], size)
  }

  /** Chunk `a` comes before chunk `b`: an earlier page, or the same page and
      an earlier start. */
  predicate Before(a: PageAwareChunk, b: PageAwareChunk) {
    a.pageNumber < b.pageNumber || (a.pageNumber == b.pageNumber && a.startChar < b.startChar)
  }

  predicate AllInDocument(cs: seq<PageAwareChunk>, pages: seq<string>, size: int) {
    forall i :: 0 <= i < |cs| ==> InDocument(cs[i], pages, size)
  }

  predicate InReadingOrder(cs: seq<PageAwareChunk>) {
    forall i, j :: 0 <= i < j < |cs| ==> Before(cs[i], cs[j])
  }

  /** A chunk of a prefix of the pages is a chunk of the whole list. */
  lemma InDocumentExtend(c: PageAwareChunk, front: seq<string>, pages: seq<string>, size: int)
    requires front <= pages && InDocument(c, front, size)
    ensures InDocument(c, pages, size)
  {
    assert pages[c.pageNumber - 1] == front[c.pageNumber - 1];
  }

  /** Appending the chunks of page `n` to those of the earlier pages keeps
      every chunk in the document and the reading order. */
  lemma AppendPage(earlier: seq<PageAwareChunk>, here: seq<PageAwareChunk>, pages: seq<string>, size: int, n: int)
    requires AllInDocument(earlier, pages, size) && AllInDocument(here, pages, size)
    requires InReadingOrder(earlier) && InReadingOrder(here)
    requires forall i :: 0 <= i < |earlier| ==> earlier[i].pageNumber < n
    requires forall i :: 0 <= i < |here| ==> here[i].pageNumber == n
    ensures AllInDocument(earlier + here, pages, size)
    ensures InReadingOrder(earlier + here)
  {
    var cs := earlier + here;
    forall i, j | 0 <= i < j < |cs| ensures Before(cs[i], cs[j]) {
      if j < |earlier| {
        assert cs[i] == earlier[i] && cs[j] == earlier[j];
      } else if i >= |earlier| {
        assert cs[i] == here[i - |earlier|] && cs[j] == here[j - |earlier|];
      } else {
        assert cs[i] == earlier[i] && cs[j] == here[j - |earlier|];
      }
    }
  }

  /** Over the whole document: every chunk names a page that exists and is not
      blank, is valid for that page, and chunks are ordered by page and then
      by increasing `start_char`. */
  lemma {:induction false} DocumentChunksProperties(pages: seq<string>, config: PdfConfig)
    requires config.chunkSize >= 1
    ensures AllInDocument(DocumentChunks(pages, config), pages, config.chunkSize)
    ensures InReadingOrder(DocumentChunks(pages, config))
  {
    if pages != [] {
      var n, size := |pages|, config.chunkSize;
      var front, last := pages[..n - 1], pages[n - 1];
      var earlier := DocumentChunks(front, config);
      var here := if IsBlank(last) then [] else PageChunks(last, n, config);
      var cs := DocumentChunks(pages, config);
      assert cs == earlier + here;
      DocumentChunksProperties(front, config);
      assert forall i :: 0 <= i < |earlier| ==> InDocument(earlier[i], pages, size) && earlier[i].pageNumber < n by {
        forall i | 0 <= i < |earlier| ensures InDocument(earlier[i], pages, size) && earlier[i].pageNumber < n {
          assert InDocument(earlier[i], front, size);
          InDocumentExtend(earlier[i], front, pages, size);
        }
      }
      assert AllInDocument(here, pages, size) && InReadingOrder(here)
        && forall i :: 0 <= i < |here| ==> here[i].pageNumber == n
      by {
        if !IsBlank(last) {
          PageChunksValid(last, n, config);
        }
      }
      AppendPage(earlier, here, pages, size, n);
    }
  }

  /** The per-page loop (lines 17-52). */
  method ChunkPage(pageText: string, pageNum: int, config: PdfConfig) returns (chunks: seq<PageAwareChunk>)
    requires config.chunkSize >= 1
    ensures chunks == PageChunks(pageText, pageNum, config)
  {
    var chunkSize := config.chunkSize;
    var overlap := if config.chunkOverlap <= chunkSize / 2 then config.chunkOverlap else chunkSize / 2;
    chunks := [];
    var start: nat := 0;
    ghost var whole := ChunksFrom(pageText, pageNum, chunkSize, overlap, 0);
    while start < |pageText|
      invariant chunks + ChunksFrom(pageText, pageNum, chunkSize, overlap, start) == whole
      decreases |pageText| - start
    {
      var end := WindowEnd(pageText, start, chunkSize);
      ghost var before := chunks;
      var chunkText := Strip(pageText[start..end]);
      ghost var piece: seq<PageAwareChunk> := [];
      if chunkText != [] {
        chunks := chunks + [PageAwareChunk(chunkText, pageNum, start, end)];
        piece := [PageAwareChunk(chunkText, pageNum, start, end)];
      }
      var newStart := end - overlap;
      if newStart <= start {
        newStart := end;
      }
      ChunksFromStep(pageText, pageNum, chunkSize, overlap, start, end);
      assert newStart == NextStart(start, end, overlap);
      assert piece == if Strip(pageText[start..end]) == [] then [] else [PageAwareChunk(Strip(pageText[start..end]), pageNum, start, end)];
      assert ChunksFrom(pageText, pageNum, chunkSize, overlap, start) == piece + ChunksFrom(pageText, pageNum, chunkSize, overlap, newStart);
      AppendShift(before, piece, ChunksFrom(pageText, pageNum, chunkSize, overlap, newStart), chunks, whole);
      start := newStart;
      if start >= |pageText| {
        break;
      }
    }
    ChunksFromWindows(pageText, pageNum, chunkSize, overlap, 0);
  }

  /** `process_pdf_sync` over the extracted page texts, in reader order. */
  method ProcessPdfSync(pages: seq<string>, config: PdfConfig) returns (chunks: seq<PageAwareChunk>)
    requires config.chunkSize >= 1
    ensures chunks == DocumentChunks(pages, config)
  {
    chunks := [];
    for i := 0 to |pages|
      invariant chunks == DocumentChunks(pages[..i], config)
    {
      assert pages[..i + 1][..i] == pages[..i];
      var pageText := pages[i];
      if IsBlank(pageText) {
        continue;
      }
      var pageChunks := ChunkPage(pageText, i + 1, config);
      chunks := chunks + pageChunks;
    }
    assert pages[..|pages|] == pages;
  }
}
