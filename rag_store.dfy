/**
 * Ingestion in the RAG backend (`upload_pdf`): the checks on the upload,
 * the page-by-page chunking with `p{page}-c{position}` ids, the embedding
 * of every chunk, and the in-memory `DOCS` map that is written only once
 * every check has passed.
 */
module RagStore {
  import opened Wrappers
  import opened Text
  import opened Requests
  import opened Chunker
  import opened ChunkWindows
  import opened Embedder

  /** The settings the backend reads at start-up. */
  datatype Settings = Settings(
    apiKey: string,
    model: string,
    embeddingModel: string,
    topK: nat,
    chunkChars: int,
    overlap: int)

  /** The chunk parameters for which `_chunk_text` terminates. */
  predicate ChunkingOk(s: Settings)
  {
    0 < s.chunkChars && s.overlap < s.chunkChars
  }

  /** One chunk of a page. */
  datatype Chunk = Chunk(chunkId: string, page: nat, text: string)

  /** A stored document: its chunks and one embedding row per chunk. */
  datatype DocumentIndex = DocumentIndex(filename: string, pages: nat, chunks: seq<Chunk>, embeddings: seq<Vector>)

  /** The body of a successful upload. */
  datatype UploadResponse = UploadResponse(docId: string, filename: string, pages: nat, chunks: nat, embeddingModel: string)

  const DefaultFilename: string := "document.pdf"
  const NotPdfDetail: string := "Only PDF files are allowed."
  const ReadFailedPrefix: string := "Failed to read PDF: "
  const NoPagesDetail: string := "PDF has no pages."
  const NoTextDetail: string := "No extractable text found in this PDF. (If it's scanned images, you need OCR.)"
  const EmbedFailedPrefix: string := "Embedding failed: "

  /** What extracting one page gives: the result of `extract_text()`, or an exception. */
  datatype PageRead = Extracted(text: Option<string>) | ExtractFailed

  /**
   * What the PDF reader makes of the upload: the constructor raises (with
   * its message), counting the pages raises, or the pages open.
   */
  datatype PdfRead =
    | ReaderFailed(message: string)
    | PageCountFailed
    | Opened(pages: seq<PageRead>)

  /** Every page's text was extracted without an exception. */
  predicate AllExtracted(ps: seq<PageRead>)
  {
    forall k :: 0 <= k < |ps| ==> ps[k].Extracted?
  }

  /** The extracted texts of the pages, in page order. */
  function Texts(ps: seq<PageRead>): (r: seq<Option<string>>)
    requires AllExtracted(ps)
    ensures |r| == |ps| && forall k :: 0 <= k < |ps| ==> r[k] == ps[k].text
  {
    seq(|ps|, k requires 0 <= k < |ps| => ps[k].text)
  }

  /** Why `upload_pdf` refuses an upload. */
  datatype UploadError =
    | MissingKey
    | NotPdf
    | Unreadable(message: string)
    | NoPages
    | NoText
    | EmbeddingFailed(message: string)
    | Crashed

  /** The HTTP error raised for each refusal. */
  function Response(e: UploadError): HttpError
  {
    match e
    case MissingKey => HttpError(500, MissingKeyDetail)
    case NotPdf => HttpError(400, NotPdfDetail)
    case Unreadable(m) => HttpError(400, ReadFailedPrefix + m)
    case NoPages => HttpError(400, NoPagesDetail)
    case Crashed => InternalError
    case NoText => HttpError(400, NoTextDetail)
    case EmbeddingFailed(m) => HttpError(500, EmbedFailedPrefix + m)
  }

  /** The id of the `pos`-th chunk of page `page`, both counted from 1. */
  function ChunkId(page: nat, pos: nat): string
  {
    "p" + NatToString(page) + "-c" + NatToString(pos)
  }

  /** A reader of chunk ids: `p`, digits, `-c`, digits. */
  function ParseChunkId(s: string): Option<(nat, nat)>
  {
    if s == [] || s[0] != 'p' then None
    else
      var k := IndexOf(s, '-', 1);
      if !StartsWith(s[k..], "-c") then None
      else
        var a := s[1..k];
        var b := s[k + 2..];
        if a == [] || b == [] || !AllDigits(a) || !AllDigits(b) then None
        else Some((ParseDigits(a), ParseDigits(b)))
  }

  /** A chunk id reads back as the page and position it was made from. */
  lemma ParseChunkIdRoundTrip(page: nat, pos: nat)
    ensures ParseChunkId(ChunkId(page, pos)) == Some((page, pos))
  {
    var a := NatToString(page);
    var b := NatToString(pos);
    var s := ChunkId(page, pos);
    var k := 1 + |a|;
    assert s == "p" + a + "-c" + b;
    forall j | 1 <= j < k
      ensures s[j] != '-'
    {
      assert s[j] == a[j - 1];
    }
    IndexOfAt(s, '-', 1, k);
    assert s[k..][..2] == "-c";
    assert s[1..k] == a;
    assert s[k + 2..] == b;
    ParseNatToString(page);
    ParseNatToString(pos);
  }

  /** Different pages or positions never share an id. */
  lemma ChunkIdInjective(p1: nat, c1: nat, p2: nat, c2: nat)
    requires ChunkId(p1, c1) == ChunkId(p2, c2)
    ensures p1 == p2 && c1 == c2
  {
    ParseChunkIdRoundTrip(p1, c1);
    ParseChunkIdRoundTrip(p2, c2);
  }

  /** `extract_text() or ""`: a page without text counts as the empty text. */
  function PageText(t: Option<string>): string
  {
    if t.Some? then t.value else ""
  }

  /** The chunks made from the texts of page `page`, numbered from 1 in order. */
  function PageChunks(page: nat, texts: seq<string>): (r: seq<Chunk>)
    ensures |r| == |texts|
    ensures forall i :: 0 <= i < |r| ==> r[i] == Chunk(ChunkId(page, i + 1), page, texts[i])
  {
    seq(|texts|, i requires 0 <= i < |texts| => Chunk(ChunkId(page, i + 1), page, texts[i]))
  }

  /** The chunk texts of every page, in page order. */
  function PageTexts(pages: seq<Option<string>>, width: int, overlap: int): (r: seq<seq<string>>)
    requires 0 < width && overlap < width
    ensures |r| == |pages|
    decreases |pages|
  {
    if pages == [] then []
    else PageTexts(pages[..|pages| - 1], width, overlap) + [Chunks(PageText(pages[|pages| - 1]), width, overlap)]
  }

  /** The texts of page `k + 1` are the chunks of its extracted text. */
  lemma {:induction false} PageTextsAt(pages: seq<Option<string>>, width: int, overlap: int, k: nat)
    requires 0 < width && overlap < width && k < |pages|
    ensures PageTexts(pages, width, overlap)[k] == Chunks(PageText(pages[k]), width, overlap)
    decreases |pages|
  {
    if k < |pages| - 1 {
      PageTextsAt(pages[..|pages| - 1], width, overlap, k);
      assert pages[..|pages| - 1][k] == pages[k];
    }
  }

  /** The labelled chunks of the first `p` pages: page by page, each page's in order. */
  function LabelPages(perPage: seq<seq<string>>, p: nat): seq<Chunk>
    requires p <= |perPage|
    decreases p
  {
    if p == 0 then [] else LabelPages(perPage, p - 1) + PageChunks(p, perPage[p - 1])
  }

  /** The chunks `upload_pdf` builds for a document. */
  function DocChunks(pages: seq<Option<string>>, width: int, overlap: int): seq<Chunk>
    requires 0 < width && overlap < width
  {
    LabelPages(PageTexts(pages, width, overlap), |pages|)
  }

  /** Every page number lies between `lo` and `hi`. */
  predicate PagesWithin(cs: seq<Chunk>, lo: nat, hi: nat)
  {
    forall i :: 0 <= i < |cs| ==> lo <= cs[i].page <= hi
  }

  /** Chunks of earlier pages come first. */
  predicate PageOrdered(cs: seq<Chunk>)
  {
    forall i, j :: 0 <= i < j < |cs| ==> cs[i].page <= cs[j].page
  }

  predicate IdsDistinct(cs: seq<Chunk>)
  {
    forall i, j :: 0 <= i < j < |cs| ==> cs[i].chunkId != cs[j].chunkId
  }

  /** The id of a chunk reads back as the chunk's own page. */
  predicate IdNamesPage(c: Chunk)
  {
    var k := ParseChunkId(c.chunkId);
    k.Some? && k.value.0 == c.page
  }

  predicate IdsNamePages(cs: seq<Chunk>)
  {
    forall i :: 0 <= i < |cs| ==> IdNamesPage(cs[i])
  }

  /** Every chunk text is non-empty and at most `width` long. */
  predicate TextsSized(cs: seq<Chunk>, width: int)
  {
    forall i :: 0 <= i < |cs| ==> 0 < |cs[i].text| <= width
  }

  /** The labelling `upload_pdf` promises for a document of `n` pages. */
  predicate Labelled(cs: seq<Chunk>, n: nat, width: int)
  {
    PagesWithin(cs, 1, n) && PageOrdered(cs) && IdsDistinct(cs) && IdsNamePages(cs) && TextsSized(cs, width)
  }

  /** The chunks of one page carry its number, distinct ids naming it, and sized texts. */
  lemma PageChunksLabelled(page: nat, texts: seq<string>, width: int)
    requires forall i :: 0 <= i < |texts| ==> 0 < |texts[i]| <= width
    ensures var cs := PageChunks(page, texts);
      PagesWithin(cs, page, page) && IdsDistinct(cs) && IdsNamePages(cs) && TextsSized(cs, width)
  {
    var cs := PageChunks(page, texts);
    forall i, j | 0 <= i < j < |cs|
      ensures cs[i].chunkId != cs[j].chunkId
    {
      if cs[i].chunkId == cs[j].chunkId {
        ChunkIdInjective(page, i + 1, page, j + 1);
      }
    }
    forall i | 0 <= i < |cs|
      ensures IdNamesPage(cs[i])
    {
      ParseChunkIdRoundTrip(page, i + 1);
    }
  }

  /** A later page's chunks appended after earlier pages' keep the labelling. */
  lemma AppendLabelled(a: seq<Chunk>, b: seq<Chunk>, page: nat, width: int)
    requires 1 <= page
    requires Labelled(a, page - 1, width)
    requires PagesWithin(b, page, page) && IdsDistinct(b) && IdsNamePages(b) && TextsSized(b, width)
    ensures Labelled(a + b, page, width)
  {
    var c := a + b;
    assert forall i :: |a| <= i < |c| ==> c[i] == b[i - |a|];
    forall i, j | 0 <= i < j < |c|
      ensures c[i].chunkId != c[j].chunkId
    {
      if j < |a| {
        assert c[i] == a[i] && c[j] == a[j];
      } else if i >= |a| {
        assert c[i] == b[i - |a|];
      } else {
        assert c[i] == a[i] && IdNamesPage(a[i]) && IdNamesPage(b[j - |a|]);
        assert a[i].page < page;
      }
    }
  }

  /** Every text of every page is non-empty and at most `width` long. */
  predicate AllSized(perPage: seq<seq<string>>, width: int)
  {
    forall k, i :: 0 <= k < |perPage| && 0 <= i < |perPage[k]| ==> 0 < |perPage[k][i]| <= width
  }

  /**
   * The chunks of the first `p` pages carry 1-based pages up to `p`, in
   * page order, with distinct ids naming their page, and the pages' texts.
   */
  lemma {:induction false} LabelPagesLabelled(perPage: seq<seq<string>>, p: nat, width: int)
    requires p <= |perPage| && AllSized(perPage, width)
    ensures Labelled(LabelPages(perPage, p), p, width)
    decreases p
  {
    if p > 0 {
      LabelPagesLabelled(perPage, p - 1, width);
      PageChunksLabelled(p, perPage[p - 1], width);
      AppendLabelled(LabelPages(perPage, p - 1), PageChunks(p, perPage[p - 1]), p, width);
    }
  }

  /** There is no chunk exactly when no page has a text. */
  lemma {:induction false} LabelPagesEmpty(perPage: seq<seq<string>>, p: nat)
    requires p <= |perPage|
    ensures LabelPages(perPage, p) == [] <==> forall k :: 0 <= k < p ==> perPage[k] == []
    decreases p
  {
    if p > 0 {
      LabelPagesEmpty(perPage, p - 1);
      var before := LabelPages(perPage, p - 1);
      assert |before + PageChunks(p, perPage[p - 1])| == |before| + |perPage[p - 1]|;
    }
  }

  /** Every one of the pages cleans to the empty text. */
  predicate Blank(pages: seq<Option<string>>)
  {
    forall k :: 0 <= k < |pages| ==> Clean(PageText(pages[k])) == []
  }

  /**
   * A document's chunks carry 1-based pages, in page order, with distinct
   * ids naming their page and texts of 1 to `width` characters; there is
   * none exactly when every page cleans to the empty text.
   */
  lemma DocChunksLabelled(pages: seq<Option<string>>, width: int, overlap: int)
    requires 0 < width && overlap < width
    ensures Labelled(DocChunks(pages, width, overlap), |pages|, width)
    ensures DocChunks(pages, width, overlap) == [] <==> Blank(pages)
  {
    var perPage := PageTexts(pages, width, overlap);
    forall k | 0 <= k < |pages|
      ensures (forall i :: 0 <= i < |perPage[k]| ==> 0 < |perPage[k][i]| <= width)
      ensures perPage[k] == [] <==> Clean(PageText(pages[k])) == []
    {
      PageTextsAt(pages, width, overlap, k);
      ChunksBounded(PageText(pages[k]), width, overlap);
    }
    LabelPagesLabelled(perPage, |pages|, width);
    LabelPagesEmpty(perPage, |pages|);
  }

  /** Labelling one more text of a page appends one chunk. */
  lemma PageChunksSnoc(page: nat, texts: seq<string>, ci: nat)
    requires ci < |texts|
    ensures PageChunks(page, texts[..ci + 1]) ==
      PageChunks(page, texts[..ci]) + [Chunk(ChunkId(page, ci + 1), page, texts[ci])]
  {
    var l := PageChunks(page, texts[..ci + 1]);
    var r := PageChunks(page, texts[..ci]) + [Chunk(ChunkId(page, ci + 1), page, texts[ci])];
    forall i | 0 <= i < |l|
      ensures l[i] == r[i]
    {
      assert texts[..ci + 1][i] == texts[i];
      if i < ci {
        assert texts[..ci][i] == texts[i];
      }
    }
  }

  /** The inner loop of `upload_pdf`: append the chunks of page `page`, numbered from 1. */
  method AppendPage(chunks: seq<Chunk>, page: nat, texts: seq<string>) returns (out: seq<Chunk>)
    ensures out == chunks + PageChunks(page, texts)
  {
    out := chunks;
    var ci := 0;
    while ci < |texts|
      invariant ci <= |texts|
      invariant out == chunks + PageChunks(page, texts[..ci])
    {
      PageChunksSnoc(page, texts, ci);
      out := out + [Chunk(ChunkId(page, ci + 1), page, texts[ci])];
      ci := ci + 1;
    }
    assert texts[..ci] == texts;
  }

  /** One more page labelled appends that page's chunks. */
  lemma LabelPagesStep(perPage: seq<seq<string>>, p: nat)
    requires p < |perPage|
    ensures LabelPages(perPage, p + 1) == LabelPages(perPage, p) + PageChunks(p + 1, perPage[p])
  {
  }

  /** The page loop of `upload_pdf`: chunk every page in turn and label its chunks. */
  method LabelChunks(pages: seq<Option<string>>, width: int, overlap: int) returns (chunks: seq<Chunk>)
    requires 0 < width && overlap < width
    ensures chunks == DocChunks(pages, width, overlap)
  {
    ghost var perPage := PageTexts(pages, width, overlap);
    chunks := [];
    var p := 0;
    while p < |pages|
      invariant p <= |pages|
      invariant chunks == LabelPages(perPage, p)
    {
      var texts := ChunkText(PageText(pages[p]), width, overlap);
      PageTextsAt(pages, width, overlap, p);
      LabelPagesStep(perPage, p);
      chunks := AppendPage(chunks, p + 1, texts);
      p := p + 1;
    }
  }

  /** `filename.lower().endswith(".pdf")`. */
  predicate HasPdfExtension(name: string)
  {
    EndsWith(Lower(name), ".pdf")
  }

  /** The extension test looks at the last four characters only, ignoring ASCII case. */
  lemma HasPdfExtensionCases(name: string)
    ensures HasPdfExtension(name) <==>
      |name| >= 4 && name[|name| - 4] == '.' &&
      name[|name| - 3] in "pP" && name[|name| - 2] in "dD" && name[|name| - 1] in "fF"
  {
    var l := Lower(name);
    if |name| >= 4 {
      assert l[|l| - 4..] == [l[|l| - 4], l[|l| - 3], l[|l| - 2], l[|l| - 1]];
    }
  }

  /** `file.filename or "document.pdf"`. */
  function UploadName(filename: Option<string>): string
  {
    if filename.None? || filename.value == [] then DefaultFilename else filename.value
  }

  /**
   * The document `upload_pdf` stores, or why it refuses the upload. `pdf`
   * is what the PDF reader makes of the upload; `embed` is the embedding
   * service. Only the reader's constructor is guarded: an exception from
   * counting the pages or from extracting a page escapes the handler.
   */
  function Ingest(
    cfg: Settings, filename: Option<string>, pdf: PdfRead,
    embed: seq<string> -> Result<seq<Vector>, string>): Result<DocumentIndex, UploadError>
    requires ChunkingOk(cfg)
  {
    if RequireKey(cfg.apiKey).Some? then Failure(MissingKey)
    else if !HasPdfExtension(UploadName(filename)) then Failure(NotPdf)
    else if pdf.ReaderFailed? then Failure(Unreadable(pdf.message))
    else if pdf.PageCountFailed? then Failure(Crashed)
    else if pdf.pages == [] then Failure(NoPages)
    else if !AllExtracted(pdf.pages) then Failure(Crashed)
    else
      var chunks := DocChunks(Texts(pdf.pages), cfg.chunkChars, cfg.overlap);
      if chunks == [] then Failure(NoText)
      else
        match EmbedSpec(ChunkTexts(chunks), embed)
        case Failure(e) => Failure(EmbeddingFailed(ErrorMessage(e)))
        case Success(vs) => Success(DocumentIndex(UploadName(filename), |pdf.pages|, chunks, vs))
  }

  /** `[c.text for c in chunks]`. */
  function ChunkTexts(cs: seq<Chunk>): (r: seq<string>)
    ensures |r| == |cs|
    ensures forall i :: 0 <= i < |cs| ==> r[i] == cs[i].text
  {
    seq(|cs|, i requires 0 <= i < |cs| => cs[i].text)
  }

  /** A document fit to answer questions: pages, labelled chunks, one embedding row of one length per chunk. */
  predicate Indexed(d: DocumentIndex)
  {
    0 < d.pages && d.chunks != [] && |d.embeddings| == |d.chunks| && Matrix(d.embeddings) &&
    PagesWithin(d.chunks, 1, d.pages) && PageOrdered(d.chunks) && IdsDistinct(d.chunks)
  }

  /**
   * The checks of `upload_pdf` in their order: each refusal happens
   * exactly when the earlier checks pass and its own condition holds.
   */
  lemma IngestRejects(
    cfg: Settings, filename: Option<string>, pdf: PdfRead,
    embed: seq<string> -> Result<seq<Vector>, string>)
    requires ChunkingOk(cfg)
    ensures var r := Ingest(cfg, filename, pdf, embed);
      var keyed := RequireKey(cfg.apiKey).None?;
      var named := keyed && HasPdfExtension(UploadName(filename));
      var read := named && pdf.Opened?;
      var extracted := read && pdf.pages != [] && AllExtracted(pdf.pages);
      (r == Failure(MissingKey) <==> !keyed) &&
      (r == Failure(NotPdf) <==> keyed && !HasPdfExtension(UploadName(filename))) &&
      (r.Failure? && r.error.Unreadable? <==> named && pdf.ReaderFailed?) &&
      (r == Failure(NoPages) <==> read && pdf.pages == []) &&
      (r == Failure(Crashed) <==>
        named && (pdf.PageCountFailed? || (pdf.Opened? && pdf.pages != [] && !AllExtracted(pdf.pages)))) &&
      (r == Failure(NoText) <==> extracted && Blank(Texts(pdf.pages))) &&
      (r.Failure? && r.error.EmbeddingFailed? ==> extracted && !Blank(Texts(pdf.pages)))
  {
    if pdf.Opened? && AllExtracted(pdf.pages) {
      DocChunksLabelled(Texts(pdf.pages), cfg.chunkChars, cfg.overlap);
    }
  }

  /**
   * A stored document is the upload's name with its pages, the labelled
   * chunks of all pages, and one embedding row per chunk.
   */
  lemma IngestIndexed(
    cfg: Settings, filename: Option<string>, pdf: PdfRead,
    embed: seq<string> -> Result<seq<Vector>, string>)
    requires ChunkingOk(cfg)
    ensures var r := Ingest(cfg, filename, pdf, embed);
      r.Success? ==>
        pdf.Opened? && AllExtracted(pdf.pages) &&
        HasPdfExtension(r.value.filename) && r.value.pages == |pdf.pages| &&
        r.value.chunks == DocChunks(Texts(pdf.pages), cfg.chunkChars, cfg.overlap) &&
        Labelled(r.value.chunks, r.value.pages, cfg.chunkChars) && Indexed(r.value)
  {
    var r := Ingest(cfg, filename, pdf, embed);
    if r.Success? {
      DocChunksLabelled(Texts(pdf.pages), cfg.chunkChars, cfg.overlap);
      EmbedResultShape(ChunkTexts(r.value.chunks), embed);
    }
  }

  /** The in-memory `DOCS` map from document id to stored document. */
  class DocStore {
    var docs: map<string, DocumentIndex>

    /** Every stored document is indexed. */
    ghost predicate Valid()
      reads this
    {
      forall id :: id in docs ==> Indexed(docs[id])
    }

    constructor()
      ensures docs == map[] && Valid()
    {
      docs := map[];
    }

    /** `DOCS.get(doc_id)`. */
    method Get(docId: string) returns (d: Option<DocumentIndex>)
      ensures d.Some? <==> docId in docs
      ensures d.Some? ==> d.value == docs[docId]
    {
      if docId in docs {
        d := Some(docs[docId]);
      } else {
        d := None;
      }
    }

    /**
     * `upload_pdf` after the upload has been read: every check first, then
     * the page loop, the embedding, and only then the one write into
     * `DOCS` under the fresh id `docId`.
     */
    method UploadPdf(
      cfg: Settings, filename: Option<string>, pdf: PdfRead,
      embed: seq<string> -> Result<seq<Vector>, string>, docId: string)
      returns (r: Result<UploadResponse, UploadError>)
      requires ChunkingOk(cfg) && Valid()
      modifies this
      ensures Valid()
      ensures var spec := Ingest(cfg, filename, pdf, embed);
        (r.Failure? <==> spec.Failure?) &&
        (spec.Failure? ==> r.error == spec.error && docs == old(docs)) &&
        (spec.Success? ==>
          docs == old(docs)[docId := spec.value] &&
          (docId !in old(docs) ==> |docs| == |old(docs)| + 1) &&
          r.value == UploadResponse(docId, spec.value.filename, spec.value.pages, |spec.value.chunks|, cfg.embeddingModel))
    {
      ghost var spec := Ingest(cfg, filename, pdf, embed);
      if RequireKey(cfg.apiKey).Some? {
        return Failure(MissingKey);
      }
      var name := UploadName(filename);
      if !HasPdfExtension(name) {
        return Failure(NotPdf);
      }
      if pdf.ReaderFailed? {
        return Failure(Unreadable(pdf.message));
      }
      if pdf.PageCountFailed? {
        return Failure(Crashed);
      }
      if |pdf.pages| == 0 {
        return Failure(NoPages);
      }
      if !AllExtracted(pdf.pages) {
        return Failure(Crashed);
      }
      var pages := Texts(pdf.pages);
      var chunks := LabelChunks(pages, cfg.chunkChars, cfg.overlap);
      if chunks == [] {
        return Failure(NoText);
      }
      var embedded := EmbedTexts(ChunkTexts(chunks), embed);
      if embedded.Failure? {
        return Failure(EmbeddingFailed(ErrorMessage(embedded.error)));
      }
      var doc := DocumentIndex(name, |pages|, chunks, embedded.value);
      IngestIndexed(cfg, filename, pdf, embed);
      docs := docs[docId := doc];
      r := Success(UploadResponse(docId, name, |pages|, |chunks|, cfg.embeddingModel));
    }
  }
}
