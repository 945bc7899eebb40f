/**
 * `POST /api/chat/stream` of the RAG backend: the request checks, the
 * query (the last user message), retrieval over the stored document, the
 * labelled sources and the context built from them, the two-entry model
 * input, and the events the reply streams, framed as server-sent events.
 */
module RagChat {
  import opened Wrappers
  import opened Text
  import opened Requests
  import opened Upstream
  import opened Sse
  import opened Embedder
  import opened Retriever
  import opened RagStore

  const MaxDocId: nat := 100
  const MaxMessages: nat := 60
  const MaxContent: nat := 20000

  /** The request body as received. */
  datatype RawRagChatRequest = RawRagChatRequest(docId: string, messages: seq<RawMessage>)

  /** A validated `RagChatRequest`. */
  datatype RagChatRequest = RagChatRequest(docId: string, messages: seq<Message>)

  /**
   * The `RagChatRequest` model: a `doc_id` of 1 to 100 characters and at
   * most 60 messages, each from `user` or `assistant` with 1 to 20000
   * characters of content.
   */
  function ValidateRequest(raw: RawRagChatRequest): (r: Option<RagChatRequest>)
    ensures r.Some? <==>
      1 <= |raw.docId| <= MaxDocId && |raw.messages| <= MaxMessages &&
      forall i :: 0 <= i < |raw.messages| ==> ValidMessage(raw.messages[i], MaxContent)
    ensures r.Some? ==> r.value.docId == raw.docId && |r.value.messages| == |raw.messages|
    ensures r.Some? ==> forall i :: 0 <= i < |raw.messages| ==>
      RoleName(r.value.messages[i].role) == raw.messages[i].role && r.value.messages[i].content == raw.messages[i].content
  {
    if 1 <= |raw.docId| <= MaxDocId then
      match ValidateMessages(raw.messages, MaxMessages, MaxContent)
      case None => None
      case Some(ms) => Some(RagChatRequest(raw.docId, ms))
    else None
  }

  /** `[m.content for m in messages if m.role == "user"]`. */
  function UserContents(ms: seq<Message>): seq<string>
    decreases |ms|
  {
    if ms == [] then []
    else
      var last := ms[|ms| - 1];
      UserContents(ms[..|ms| - 1]) + (if last.role == User then [last.content] else [])
  }

  /** The query: the content of the last user message, `None` when there is none. */
  function Query(ms: seq<Message>): Option<string>
  {
    var u := UserContents(ms);
    if u == [] then None else Some(u[|u| - 1])
  }

  /**
   * There is a query exactly when some message is from the user, and then
   * it is the content of a user message after which no user message comes.
   */
  lemma {:induction false} QueryIsLastUserMessage(ms: seq<Message>)
    ensures Query(ms).None? <==> forall j :: 0 <= j < |ms| ==> ms[j].role != User
    ensures Query(ms).Some? ==>
      exists k :: 0 <= k < |ms| && ms[k].role == User && ms[k].content == Query(ms).value &&
        forall j :: k < j < |ms| ==> ms[j].role != User
    decreases |ms|
  {
    if ms != [] {
      var n := |ms|;
      var init := ms[..n - 1];
      QueryIsLastUserMessage(init);
      assert forall j :: 0 <= j < n - 1 ==> init[j] == ms[j];
      if ms[n - 1].role == User {
        assert ms[n - 1].content == Query(ms).value;
      } else {
        assert UserContents(ms) == UserContents(init) + [];
        if Query(init).Some? {
          var k :| 0 <= k < |init| && init[k].role == User && init[k].content == Query(init).value &&
            forall j :: k < j < |init| ==> init[j].role != User;
          assert ms[k] == init[k];
        }
      }
    }
  }

  /**
   * On an accepted body, the query read off the raw JSON messages: none
   * when no message has the role `"user"`, otherwise the content of a
   * `"user"` message after which no `"user"` message comes.
   */
  lemma QueryOfRawMessages(raw: RawRagChatRequest, ms: seq<Message>)
    requires ValidateRequest(raw).Some? && ms == ValidateRequest(raw).value.messages
    ensures Query(ms).None? <==> forall j :: 0 <= j < |raw.messages| ==> raw.messages[j].role != "user"
    ensures Query(ms).Some? ==>
      exists k :: 0 <= k < |raw.messages| && raw.messages[k].role == "user" && raw.messages[k].content == Query(ms).value &&
        forall j :: k < j < |raw.messages| ==> raw.messages[j].role != "user"
  {
    QueryIsLastUserMessage(ms);
    assert forall j :: 0 <= j < |ms| ==> (ms[j].role == User <==> raw.messages[j].role == "user");
  }

  /** A retrieved chunk as the `sources` event lists it. */
  datatype Source = Source(sid: string, chunkId: string, page: nat, score: real, text: string)

  /** The label of the `i`-th source, counted from 1. */
  function Sid(i: nat): string
  {
    "S" + NatToString(i)
  }

  /** The context entry for one source: its label, page and chunk id on one line, then its text. */
  function ContextLine(sid: string, c: Chunk): string
  {
    sid + " (page " + NatToString(c.page) + ", id " + c.chunkId + "):\n" + c.text
  }

  /** The sources of a ranking, labelled `S1`, `S2`, ... in rank order. */
  function SourcesOf(ranked: seq<(Chunk, real)>): (r: seq<Source>)
    ensures |r| == |ranked|
    ensures forall i :: 0 <= i < |r| ==>
      r[i] == Source(Sid(i + 1), ranked[i].0.chunkId, ranked[i].0.page, ranked[i].1, ranked[i].0.text)
  {
    seq(|ranked|, i requires 0 <= i < |ranked| =>
      Source(Sid(i + 1), ranked[i].0.chunkId, ranked[i].0.page, ranked[i].1, ranked[i].0.text))
  }

  /** The context entries of a ranking, in rank order. */
  function ContextLines(ranked: seq<(Chunk, real)>): (r: seq<string>)
    ensures |r| == |ranked|
    ensures forall i :: 0 <= i < |r| ==> r[i] == ContextLine(Sid(i + 1), ranked[i].0)
  {
    seq(|ranked|, i requires 0 <= i < |ranked| => ContextLine(Sid(i + 1), ranked[i].0))
  }

  /** The labels are distinct, and each names its rank: `S1` for the best chunk, and so on. */
  lemma SourcesLabelled(ranked: seq<(Chunk, real)>)
    ensures var r := SourcesOf(ranked);
      (forall i, j :: 0 <= i < j < |r| ==> r[i].sid != r[j].sid) &&
      (forall i :: 0 <= i < |r| ==> r[i].sid[0] == 'S' && ParseDigits(r[i].sid[1..]) == i + 1)
  {
    var r := SourcesOf(ranked);
    forall i | 0 <= i < |r|
      ensures r[i].sid[0] == 'S' && ParseDigits(r[i].sid[1..]) == i + 1
    {
      assert r[i].sid[1..] == NatToString(i + 1);
      ParseNatToString(i + 1);
    }
    forall i, j | 0 <= i < j < |r|
      ensures r[i].sid != r[j].sid
    {
      assert ParseDigits(r[i].sid[1..]) != ParseDigits(r[j].sid[1..]);
    }
  }

  /**
   * The sources keep the ranking's order of scores, and each context entry
   * starts with its source's label and ends with its chunk's text.
   */
  lemma SourcesFollowRanking(ranked: seq<(Chunk, real)>)
    requires forall i, j :: 0 <= i < j < |ranked| ==> ranked[i].1 >= ranked[j].1
    ensures var r := SourcesOf(ranked);
      forall i, j :: 0 <= i < j < |r| ==> r[i].score >= r[j].score
    ensures forall i :: 0 <= i < |ranked| ==>
      StartsWith(ContextLines(ranked)[i], Sid(i + 1) + " (page ") &&
      EndsWith(ContextLines(ranked)[i], ":\n" + ranked[i].0.text)
  {
    forall i | 0 <= i < |ranked|
      ensures StartsWith(ContextLines(ranked)[i], Sid(i + 1) + " (page ")
      ensures EndsWith(ContextLines(ranked)[i], ":\n" + ranked[i].0.text)
    {
      var c := ranked[i].0;
      var head := Sid(i + 1) + " (page ";
      var tail := ":\n" + c.text;
      var l := ContextLine(Sid(i + 1), c);
      assert l == head + (NatToString(c.page) + ", id " + c.chunkId + ")") + tail;
      assert l[..|head|] == head;
      assert l[|l| - |tail|..] == tail;
    }
  }

  /**
   * The source loop of `rag_chat_stream`: one source and one context entry
   * per ranked chunk, labelled from `S1` in rank order.
   */
  method BuildSources(ranked: seq<(Chunk, real)>) returns (sources: seq<Source>, lines: seq<string>)
    ensures sources == SourcesOf(ranked) && lines == ContextLines(ranked)
  {
    sources := [];
    lines := [];
    var i := 0;
    while i < |ranked|
      invariant i <= |ranked|
      invariant sources == SourcesOf(ranked[..i]) && lines == ContextLines(ranked[..i])
    {
      var (chunk, score) := ranked[i];
      var sid := Sid(i + 1);
      assert ranked[..i + 1] == ranked[..i] + [ranked[i]];
      sources := sources + [Source(sid, chunk.chunkId, chunk.page, score, chunk.text)];
      lines := lines + [ContextLine(sid, chunk)];
      i := i + 1;
    }
    assert ranked[..i] == ranked;
  }

  const ContextSeparator: string := "\n\n---\n\n"

  /** The context handed to the model: the entries joined by a `---` line between blank lines. */
  function Context(ranked: seq<(Chunk, real)>): string
  {
    Join(ContextLines(ranked), ContextSeparator)
  }

  /** The context starts with the best chunk's entry, and is empty exactly when nothing was retrieved. */
  lemma ContextStartsWithBest(ranked: seq<(Chunk, real)>)
    ensures ranked == [] <==> Context(ranked) == []
    ensures ranked != [] ==> StartsWith(Context(ranked), ContextLines(ranked)[0])
  {
    var lines := ContextLines(ranked);
    if |lines| > 1 {
      var rest := ContextSeparator + Join(lines[1..], ContextSeparator);
      assert Context(ranked) == lines[0] + rest;
      assert (lines[0] + rest)[..|lines[0]|] == lines[0];
    }
    if ranked != [] {
      assert |lines[0]| > 0 by {
        assert lines[0] == ContextLine(Sid(1), ranked[0].0);
      }
    }
  }

  /** The developer prompt of the RAG backend, one rule per line. */
  const SystemPromptLines: seq<string> := [
    "You are a helpful assistant. Answer the user using ONLY the provided CONTEXT.",
    "If the answer is not in the context, say you don't know and ask the user to upload a more relevant PDF.",
    "",
    "Citations rules:",
    "- When you use a piece of information from the context, cite it like [S1] or [S2].",
    "- You can cite multiple sources like [S1][S3].",
    "",
    "Write in the same language as the user's question."
  ]

  function SystemPrompt(): string
  {
    Join(SystemPromptLines, "\n")
  }

  /** The user entry of the model input: the context, then the question. */
  function UserContent(context: string, query: string): string
  {
    "CONTEXT:\n" + context + "\n\nQUESTION:\n" + query
  }

  /** `msgs`: the developer prompt and one user entry; the earlier conversation is not sent. */
  function ModelInput(context: string, query: string): seq<Message>
  {
    [Message(Developer, SystemPrompt()), Message(User, UserContent(context, query))]
  }

  /**
   * The model input has exactly two entries: the developer prompt, then a
   * user entry that starts with the context and ends with the question.
   */
  lemma ModelInputShape(context: string, query: string)
    ensures var r := ModelInput(context, query);
      |r| == 2 && r[0] == Message(Developer, SystemPrompt()) && r[1].role == User &&
      StartsWith(r[1].content, "CONTEXT:\n" + context) && EndsWith(r[1].content, "\n\nQUESTION:\n" + query)
  {
    var c := UserContent(context, query);
    assert c[..|"CONTEXT:\n" + context|] == "CONTEXT:\n" + context;
    assert c[|c| - |"\n\nQUESTION:\n" + query|..] == "\n\nQUESTION:\n" + query;
  }

  /** The dot product of two rows of the same length. */
  function Dot(a: Vector, b: Vector): real
    requires |a| == |b|
    decreases |a|
  {
    if a == [] then 0.0 else a[0] * b[0] + Dot(a[1..], b[1..])
  }

  /** `doc.embeddings @ q_emb`: one similarity per chunk; numpy refuses rows of another length than `q`. */
  function Scores(rows: seq<Vector>, q: Vector): (r: seq<real>)
    requires forall i :: 0 <= i < |rows| ==> |rows[i]| == |q|
    ensures |r| == |rows|
  {
    seq(|rows|, i requires 0 <= i < |rows| => Dot(rows[i], q))
  }

  /** What the reply streams, before framing. */
  datatype Event =
    | MetaEvent(model: string, filename: string, pages: nat, topK: nat)
    | SourcesEvent(sources: seq<Source>)
    | DeltaEvent(delta: string)
    | ErrorEvent(error: string)
    | DoneEvent(latencyMs: nat)

  /** The `delta` events of the forwarded fragments, in order. */
  function Deltas(fragments: seq<string>): (r: seq<Event>)
    ensures |r| == |fragments|
    ensures forall i :: 0 <= i < |r| ==> r[i] == DeltaEvent(fragments[i])
  {
    seq(|fragments|, i requires 0 <= i < |fragments| => DeltaEvent(fragments[i]))
  }

  /**
   * `generate`: `meta` (with no latency yet), `sources`, one `delta` per
   * forwarded fragment, an `error` if the upstream stream `u` raised, and
   * always `done` with the measured latency `latencyMs`.
   */
  function Generate(cfg: Settings, doc: DocumentIndex, sources: seq<Source>, u: Stream, latencyMs: nat): seq<Event>
  {
    [MetaEvent(cfg.model, doc.filename, doc.pages, cfg.topK), SourcesEvent(sources)] +
    Deltas(Fragments(u)) +
    (if u.failure.Some? then [ErrorEvent(u.failure.value)] else []) +
    [DoneEvent(latencyMs)]
  }

  /**
   * The event order: `meta` first, `sources` second, then the fragments in
   * arrival order, none empty; then one `error` exactly when the stream
   * raised; and one `done`, always last, even after an error.
   */
  lemma GenerateOrder(cfg: Settings, doc: DocumentIndex, sources: seq<Source>, u: Stream, latencyMs: nat)
    ensures var es := Generate(cfg, doc, sources, u, latencyMs);
      var f := Fragments(u);
      var e := if u.failure.Some? then 1 else 0;
      |es| == 2 + |f| + e + 1 &&
      es[0] == MetaEvent(cfg.model, doc.filename, doc.pages, cfg.topK) &&
      es[1] == SourcesEvent(sources) &&
      (forall i :: 0 <= i < |f| ==> es[2 + i] == DeltaEvent(f[i]) && f[i] != []) &&
      (u.failure.Some? ==> es[2 + |f|] == ErrorEvent(u.failure.value)) &&
      es[|es| - 1] == DoneEvent(latencyMs)
    ensures var es := Generate(cfg, doc, sources, u, latencyMs);
      (forall i :: 0 <= i < |es| - 1 ==> !es[i].DoneEvent?) &&
      (forall i, j :: 0 <= i < j < |es| && es[i].ErrorEvent? && es[j].ErrorEvent? ==> false) &&
      ((exists i :: 0 <= i < |es| && es[i].ErrorEvent?) <==> u.failure.Some?)
  {
    var es := Generate(cfg, doc, sources, u, latencyMs);
    var f := Fragments(u);
    var head := [MetaEvent(cfg.model, doc.filename, doc.pages, cfg.topK), SourcesEvent(sources)];
    var err := if u.failure.Some? then [ErrorEvent(u.failure.value)] else [];
    var ds := Deltas(f);
    FragmentsNonEmpty(u);
    assert es == head + ds + err + [DoneEvent(latencyMs)];
    forall i | 0 <= i < |es|
      ensures es[i].ErrorEvent? <==> u.failure.Some? && i == 2 + |f|
      ensures es[i].DoneEvent? <==> i == |es| - 1
    {
      if i < 2 {
        assert es[i] == head[i];
      } else if i < 2 + |f| {
        assert es[i] == ds[i - 2];
      } else if i < 2 + |f| + |err| {
        assert es[i] == err[i - 2 - |f|];
      }
    }
    if u.failure.Some? {
      assert es[2 + |f|].ErrorEvent?;
    }
  }

  /** The `event:` name of each event. */
  function EventName(e: Event): string
  {
    match e
    case MetaEvent(_, _, _, _) => "meta"
    case SourcesEvent(_) => "sources"
    case DeltaEvent(_) => "delta"
    case ErrorEvent(_) => "error"
    case DoneEvent(_) => "done"
  }

  /** The frames of the events; `json` is the payload serialisation. */
  function Frames(es: seq<Event>, json: Event -> string): (r: seq<Frame>)
    ensures |r| == |es|
    ensures forall i :: 0 <= i < |r| ==> r[i] == Frame(EventName(es[i]), json(es[i]))
  {
    seq(|es|, i requires 0 <= i < |es| => Frame(EventName(es[i]), json(es[i])))
  }

  /**
   * As long as the serialisation never writes a newline (as `json.dumps`
   * without indentation does not), a reader of the body recovers every
   * event's name and payload in order.
   */
  lemma BodyParses(es: seq<Event>, json: Event -> string)
    requires forall e :: SingleLine(json(e))
    ensures ParseAll(Render(Frames(es, json))) == Some(Frames(es, json))
  {
    var fs := Frames(es, json);
    forall i | 0 <= i < |fs|
      ensures SingleLine(fs[i].event) && SingleLine(fs[i].data)
    {
      assert SingleLine(json(es[i]));
    }
    ParseRender(fs);
  }

  /** Why `rag_chat_stream` refuses a request. */
  datatype ChatError =
    | InvalidBody
    | NoApiKey
    | UnknownDoc
    | NoUserMessage
    | QueryEmbeddingFailed(message: string)
    | DimensionMismatch

  /**
   * The HTTP error for each refusal; a failing query embedding, and a query
   * embedding whose length differs from the stored rows', escape the
   * handler as a 500.
   */
  function ChatResponse(e: ChatError): HttpError
  {
    match e
    case InvalidBody => ValidationFailed
    case NoApiKey => HttpError(500, MissingKeyDetail)
    case UnknownDoc => HttpError(404, "Unknown doc_id. Upload a PDF first.")
    case NoUserMessage => HttpError(400, "No user message provided.")
    case QueryEmbeddingFailed(_) => InternalError
    case DimensionMismatch => InternalError
  }

  /** A reply: what is sent to the model, and the events streamed back. */
  datatype Reply = Reply(input: seq<Message>, events: seq<Event>)

  /** Every stored document is indexed. */
  predicate AllIndexed(docs: map<string, DocumentIndex>)
  {
    forall id :: id in docs ==> Indexed(docs[id])
  }

  /** The query embedding has the length of the document's rows, so `@` is defined. */
  predicate Comparable(doc: DocumentIndex, q: Vector)
    requires Indexed(doc)
  {
    |q| == |doc.embeddings[0]|
  }

  /**
   * The ranked chunks of `doc` for the query embedding `q`: `min(top_k, n)`
   * chunks at the `TopK` positions of the similarities, each with its own
   * similarity, best first, and no chunk left out more similar than one
   * returned.
   */
  function RankedChunks(doc: DocumentIndex, q: Vector, topK: nat): (r: seq<(Chunk, real)>)
    requires Indexed(doc) && Comparable(doc, q)
    ensures var sims := Scores(doc.embeddings, q);
      |r| == Min(topK, |doc.chunks|) &&
      (forall i :: 0 <= i < |r| ==>
        r[i] == (doc.chunks[TopK(sims, topK)[i]], sims[TopK(sims, topK)[i]])) &&
      (forall i, j :: 0 <= i < j < |r| ==> r[i].1 >= r[j].1) &&
      (forall i, j :: 0 <= i < |r| && 0 <= j < |doc.chunks| && j !in TopK(sims, topK) ==> r[i].1 >= sims[j])
  {
    Retrieve(doc.chunks, Scores(doc.embeddings, q), topK)
  }

  /**
   * What `rag_chat_stream` answers, given the stored documents `docs`,
   * the embedding service `embed`, the upstream stream `u` opened for the
   * model input, and the latency `latencyMs` measured at the end.
   */
  function Chat(
    cfg: Settings, docs: map<string, DocumentIndex>, raw: RawRagChatRequest,
    embed: seq<string> -> Result<seq<Vector>, string>, u: Stream, latencyMs: nat): Result<Reply, ChatError>
    requires AllIndexed(docs)
  {
    match Admit(cfg, docs, raw)
    case Failure(e) => Failure(e)
    case Success((doc, query)) => Answer(cfg, doc, query, embed, u, latencyMs)
  }

  /**
   * The checks `rag_chat_stream` makes before anything streams: the
   * stored document and the query, or the refusal.
   */
  function Admit(cfg: Settings, docs: map<string, DocumentIndex>, raw: RawRagChatRequest): (r: Result<(DocumentIndex, string), ChatError>)
    ensures r.Success? ==> raw.docId in docs && r.value.0 == docs[raw.docId]
  {
    match ValidateRequest(raw)
    case None => Failure(InvalidBody)
    case Some(req) =>
      if RequireKey(cfg.apiKey).Some? then Failure(NoApiKey)
      else if req.docId !in docs then Failure(UnknownDoc)
      else
        match Query(req.messages)
        case None => Failure(NoUserMessage)
        case Some(query) => Success((docs[req.docId], query))
  }

  /** The reply once the document and the query are known: embed the query, rank, assemble, stream. */
  function Answer(
    cfg: Settings, doc: DocumentIndex, query: string,
    embed: seq<string> -> Result<seq<Vector>, string>, u: Stream, latencyMs: nat): Result<Reply, ChatError>
    requires Indexed(doc)
  {
    match EmbedSpec([query], embed)
    case Failure(e) => Failure(QueryEmbeddingFailed(ErrorMessage(e)))
    case Success(qv) =>
      EmbedResultShape([query], embed);
      if !Comparable(doc, qv[0]) then Failure(DimensionMismatch)
      else
        var ranked := RankedChunks(doc, qv[0], cfg.topK);
        Success(Reply(ModelInput(Context(ranked), query), Generate(cfg, doc, SourcesOf(ranked), u, latencyMs)))
  }

  /**
   * The refusals in their order: an invalid body, then a missing key,
   * then an unknown document, then a conversation without a `user`
   * message, all before any event is streamed.
   */
  lemma ChatRejects(
    cfg: Settings, docs: map<string, DocumentIndex>, raw: RawRagChatRequest,
    embed: seq<string> -> Result<seq<Vector>, string>, u: Stream, latencyMs: nat)
    requires AllIndexed(docs)
    ensures var r := Admit(cfg, docs, raw);
      var valid := ValidateRequest(raw).Some?;
      var keyed := valid && RequireKey(cfg.apiKey).None?;
      var known := keyed && raw.docId in docs;
      (r == Failure(InvalidBody) <==> !valid) &&
      (r == Failure(NoApiKey) <==> valid && !keyed) &&
      (r == Failure(UnknownDoc) <==> keyed && raw.docId !in docs) &&
      (r == Failure(NoUserMessage) <==>
        known && forall j :: 0 <= j < |raw.messages| ==> raw.messages[j].role != "user")
  {
    var v := ValidateRequest(raw);
    if v.Some? {
      var ms := v.value.messages;
      QueryIsLastUserMessage(ms);
      assert forall j :: 0 <= j < |raw.messages| ==> (ms[j].role == User <==> raw.messages[j].role == "user") by {
        forall j | 0 <= j < |raw.messages|
          ensures ms[j].role == User <==> raw.messages[j].role == "user"
        {
          assert RoleName(ms[j].role) == raw.messages[j].role;
        }
      }
    }
  }

  /** A request `Admit` refuses gets that refusal; past it, only the query embedding and its length can still fail. */
  lemma ChatAfterAdmit(
    cfg: Settings, docs: map<string, DocumentIndex>, raw: RawRagChatRequest,
    embed: seq<string> -> Result<seq<Vector>, string>, u: Stream, latencyMs: nat)
    requires AllIndexed(docs)
    ensures var c := Chat(cfg, docs, raw, embed, u, latencyMs);
      (Admit(cfg, docs, raw).Failure? ==> c == Failure(Admit(cfg, docs, raw).error)) &&
      (c.Failure? && Admit(cfg, docs, raw).Success? ==> c.error.QueryEmbeddingFailed? || c.error == DimensionMismatch)
  {
  }

  /**
   * A served request sends exactly two entries to the model: the
   * developer prompt, and the context of the retrieved chunks with the
   * last user message as the question; the reply streams the sources
   * labelled in rank order.
   */
  lemma ChatServes(
    cfg: Settings, docs: map<string, DocumentIndex>, raw: RawRagChatRequest,
    embed: seq<string> -> Result<seq<Vector>, string>, u: Stream, latencyMs: nat)
    requires AllIndexed(docs)
    ensures var r := Chat(cfg, docs, raw, embed, u, latencyMs);
      r.Success? ==>
        var req := ValidateRequest(raw).value;
        var doc := docs[raw.docId];
        var query := Query(req.messages).value;
        var q := EmbedSpec([query], embed).value[0];
        var ranked := RankedChunks(doc, q, cfg.topK);
        ValidateRequest(raw).Some? && raw.docId in docs && Query(req.messages).Some? &&
        EmbedSpec([query], embed).Success? && Comparable(doc, q) &&
        r.value.input == [Message(Developer, SystemPrompt()), Message(User, UserContent(Context(ranked), query))] &&
        r.value.events == Generate(cfg, doc, SourcesOf(ranked), u, latencyMs) &&
        |ranked| == Min(cfg.topK, |doc.chunks|)
  {
    var r := Chat(cfg, docs, raw, embed, u, latencyMs);
    if r.Success? {
      var req := ValidateRequest(raw).value;
      var query := Query(req.messages).value;
      EmbedResultShape([query], embed);
    }
  }

  /**
   * The conversation history is not forwarded: two requests for the same
   * document whose last user messages agree get the same reply.
   */
  lemma HistoryNotForwarded(
    cfg: Settings, docs: map<string, DocumentIndex>, a: RawRagChatRequest, b: RawRagChatRequest,
    embed: seq<string> -> Result<seq<Vector>, string>, u: Stream, latencyMs: nat)
    requires AllIndexed(docs)
    requires ValidateRequest(a).Some? && ValidateRequest(b).Some? && a.docId == b.docId
    requires Query(ValidateRequest(a).value.messages) == Query(ValidateRequest(b).value.messages)
    ensures Chat(cfg, docs, a, embed, u, latencyMs) == Chat(cfg, docs, b, embed, u, latencyMs)
  {
    assert ValidateRequest(a).value.docId == ValidateRequest(b).value.docId;
    assert Admit(cfg, docs, a) == Admit(cfg, docs, b);
  }

  /**
   * `rag_chat_stream` over the store: look the document up, pick the
   * query, embed it, rank the chunks, label the sources, assemble the
   * model input, and stream the events.
   */
  method ChatStream(
    store: DocStore, cfg: Settings, raw: RawRagChatRequest,
    embed: seq<string> -> Result<seq<Vector>, string>, u: Stream, latencyMs: nat)
    returns (r: Result<Reply, ChatError>)
    requires store.Valid()
    ensures AllIndexed(store.docs) && r == Chat(cfg, store.docs, raw, embed, u, latencyMs)
  {
    var valid := ValidateRequest(raw);
    if valid.None? {
      return Failure(InvalidBody);
    }
    var req := valid.value;
    if RequireKey(cfg.apiKey).Some? {
      return Failure(NoApiKey);
    }
    var found := store.Get(req.docId);
    if found.None? {
      return Failure(UnknownDoc);
    }
    var doc := found.value;
    var query := Query(req.messages);
    if query.None? {
      return Failure(NoUserMessage);
    }
    var qv := EmbedTexts([query.value], embed);
    if qv.Failure? {
      return Failure(QueryEmbeddingFailed(ErrorMessage(qv.error)));
    }
    EmbedResultShape([query.value], embed);
    if |qv.value[0]| != |doc.embeddings[0]| {
      return Failure(DimensionMismatch);
    }
    var ranked := RankedChunks(doc, qv.value[0], cfg.topK);
    var sources, lines := BuildSources(ranked);
    var context := Join(lines, ContextSeparator);
    var input := ModelInput(context, query.value);
    r := Success(Reply(input, Generate(cfg, doc, sources, u, latencyMs)));
  }
}
