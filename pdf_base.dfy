/** The records shared by the PDF chunkers. */
module PdfBase {

  /** `PDFConfig`: the character budget per chunk and the overlap between
      consecutive chunks. Neither value is validated by the source. */
  datatype PdfConfig = PdfConfig(chunkSize: int := 1000, chunkOverlap: int := 200)

  /** `PageAwareChunk`: a piece of one page's text, the page it comes from
      (counted from 1) and the raw span `[startChar, endChar)` it was cut from. */
  datatype PageAwareChunk = PageAwareChunk(text: string, pageNumber: int, startChar: int, endChar: int)

  /** The `text` fields of a chunk list, in order (the projection that
      `process_pdf` returns). */
  function ChunkTexts(chunks: seq<PageAwareChunk>): (texts: seq<string>)
    ensures |texts| == |chunks|
    ensures forall i :: 0 <= i < |chunks| ==> texts[i] == chunks[i].text
  {
    seq(|chunks|, i requires 0 <= i < |chunks| => chunks[i].text)
  }
}
