# Chatbot backends: a Dafny model

This project models the server side of two teaching chatbots:

- **The plain text chatbot** (`lessons/01-text-chatbot/backend/app/main.py`). It validates a
  `ChatRequest` and puts a developer prompt naming the chat's topic in front of the client's
  conversation. It then streams back the text fragments the OpenAI SDK delivers. When the
  upstream call raises, it ends the stream with an `[ERROR]` line.
- **The retrieval-augmented chatbot** (`lessons/02-rag-chatbot/backend/app/main.py`). It has
  two parts:
  - Upload: it accepts a PDF and cleans the text of each page. It cuts that text into
    overlapping windows and labels the chunks `p<page>-c<n>`. It embeds the chunks in
    batches of 64 and keeps the document in an in-memory store under a fresh id.
  - Chat: for a question about a stored document, it embeds the last user message and
    ranks the chunks by similarity. It keeps the `top_k` best as sources `S1`, `S2`, … and
    sends the model a developer prompt plus one user entry holding the context and the
    question. It streams back server-sent events: `meta`, `sources`, one `delta` per
    fragment, an `error` if the upstream stream raised, and always a final `done`.

The modules follow the structure of the program:

| module | file | what it holds |
|---|---|---|
| `Wrappers` | wrappers.dfy | `Option`, `Result`, `Min`, `Max` |
| `Text` | text.dfy | `str.strip`, decimal printing and parsing, `join`, ASCII `lower` |
| `Chunker`, `ChunkWindows` | chunker.dfy | `_chunk_text`: whitespace clean-up, then the sliding window loop |
| `Embedder` | embedder.dfy | `_embed_texts`: batching, sanitising, the shape check |
| `Retriever` | retriever.dfy | the ranking step of `_retrieve` |
| `Sse` | sse.dfy | `_sse` framing, and a reader that proves the framing unambiguous |
| `Upstream` | upstream.dfy | the OpenAI stream events and the fragments forwarded from them |
| `Requests` | requests.dfy | the pydantic message models, roles, the API-key guard |
| `TextChatbot` | text_chatbot.dfy | lesson 01: `_build_messages` and `chat_stream` |
| `RagStore` | rag_store.dfy | lesson 02: chunk labelling, `upload_pdf`, the `DOCS` store (a class) |
| `RagChat` | rag_chat.dfy | lesson 02: `rag_chat_stream`, sources, context, prompt and event order |

Remote services become function-valued parameters:
- `embed` is the embeddings endpoint.
- `u: Stream` is the events of the upstream chat stream, and the exception that ended it,
  if any.
- `pdf` is what the PDF reader yields: the reader's exception message, or an exception from
  counting the pages, or per page the extracted text or an exception from extracting it.
- `json` is the payload serialisation.

Values the program takes from the environment also become parameters: the settings, the
fresh document id, and the measured latency.

The in-place parts of the source stay imperative:
- `ChunkWindows.SlideWindows` is the `while` loop of `_chunk_text`.
- `Embedder.EmbedTexts` is the batch loop.
- `RagStore.LabelChunks` and `RagStore.AppendPage` are the two nested loops of `upload_pdf`.
- `RagChat.BuildSources` is the sources loop.
- `RagStore.DocStore` is the `DOCS` dictionary, a class whose `UploadPdf` method writes
  into it.

Each of these is proved equal to a specification function, and the properties are proved
about those functions.

## Model

Source paths are relative to the repository root.

| member | source | states |
|---|---|---|
| Text.StripSlice | lessons/02-rag-chatbot/backend/app/main.py:98 | `strip()` keeps one contiguous slice. It removes only white space, and the slice kept starts and ends with a non-space character. |
| Text.StripKeepsText | lessons/02-rag-chatbot/backend/app/main.py:98 | `strip()` removes only white space: the text without its white space is unchanged. |
| Text.StripUnchanged | lessons/02-rag-chatbot/backend/app/main.py:98 | A text that neither starts nor ends with white space strips to itself. |
| Text.StripEnds | lessons/02-rag-chatbot/backend/app/main.py:107-108 | A stripped text is empty exactly when the text is all white space. Otherwise its first and last characters are not white space. |
| Text.ParseNatToString | lessons/02-rag-chatbot/backend/app/main.py:191 | Decimal printing of a page or chunk number reads back as the same number. |
| Text.NatToStringInjective | lessons/02-rag-chatbot/backend/app/main.py:191 | Different numbers print differently. |
| Chunker.CollapseBlanks | lessons/02-rag-chatbot/backend/app/main.py:97 | The result is never longer than the input and has no tab and no two adjacent spaces. It is empty only for an empty input, and starts with a space exactly when the input starts with a space or tab. What happens to each run is stated by the next three lemmas. |
| Chunker.CollapseBlanksSplit | lessons/02-rag-chatbot/backend/app/main.py:97 | The substitution is local: at any character other than a space or tab, the text before and the text after are substituted separately, and that character is kept between them. |
| Chunker.CollapseBlanksRun | lessons/02-rag-chatbot/backend/app/main.py:97 | A non-empty text of spaces and tabs only becomes exactly one space. |
| Chunker.CollapseBlanksBetween | lessons/02-rag-chatbot/backend/app/main.py:97 | A run of spaces and tabs between two other characters becomes exactly one space, and the rest is substituted on its own. So "a  b" gives "a b", and two words never merge. |
| Chunker.CollapseBlanksKeepsText | lessons/02-rag-chatbot/backend/app/main.py:97 | The blank substitution keeps every character other than a space or tab, in order. |
| Chunker.CollapseBlanksUnchanged | lessons/02-rag-chatbot/backend/app/main.py:97 | A text with no tab and no two adjacent spaces is left as it is. |
| Chunker.CollapseNewlines | lessons/02-rag-chatbot/backend/app/main.py:98 | The newline substitution never lengthens the text, is empty only for an empty input, keeps the first character and only uses characters of the input. What happens to each run is stated by the next three lemmas. |
| Chunker.CollapseNewlinesSplit | lessons/02-rag-chatbot/backend/app/main.py:98 | The substitution is local: at any character other than a newline, the text before and the text after are substituted separately, and that character is kept between them. |
| Chunker.CollapseNewlinesRun | lessons/02-rag-chatbot/backend/app/main.py:98 | A text of `k` newlines becomes two newlines when `k >= 3`, and stays as it is otherwise. |
| Chunker.CollapseNewlinesBetween | lessons/02-rag-chatbot/backend/app/main.py:98 | Between two other characters, a run of three or more newlines becomes exactly two, and a shorter run is kept. So "a\n\n\nb" gives "a\n\nb". |
| Chunker.CollapseNewlinesCapsRuns | lessons/02-rag-chatbot/backend/app/main.py:98 | After the substitution no three newlines are adjacent. |
| Chunker.CollapseNewlinesKeepsText | lessons/02-rag-chatbot/backend/app/main.py:98 | The newline substitution keeps every character other than a newline, in order. |
| Chunker.CollapseNewlinesUnchanged | lessons/02-rag-chatbot/backend/app/main.py:98 | A text with no three adjacent newlines is left as it is. |
| Chunker.CleanIsNormalised | lessons/02-rag-chatbot/backend/app/main.py:96-98 | The cleaned text has no tab, no double space and no triple newline. It neither starts nor ends with white space. |
| Chunker.CleanKeepsText | lessons/02-rag-chatbot/backend/app/main.py:96-98 | Cleaning changes only white space: the text without its white space is the input's. |
| Chunker.CleanEmpty | lessons/02-rag-chatbot/backend/app/main.py:96-100 | The cleaned text is empty, so `_chunk_text` returns nothing, exactly when the input is all white space. |
| Chunker.CleanIdempotent | lessons/02-rag-chatbot/backend/app/main.py:96-98 | Cleaning a cleaned text changes nothing. |
| ChunkWindows.WindowsFrom | lessons/02-rag-chatbot/backend/app/main.py:103-112 | The windows the loop slices are valid slices of the text. There is one unless the text is used up. |
| ChunkWindows.WindowsBounded | lessons/02-rag-chatbot/backend/app/main.py:105-107 | Every window is non-empty, lies inside the text and is at most `chunk_chars` long. |
| ChunkWindows.WindowsFull | lessons/02-rag-chatbot/backend/app/main.py:106-111 | Every window except the last is exactly `chunk_chars` long and ends before the text does. |
| ChunkWindows.WindowsAdvance | lessons/02-rag-chatbot/backend/app/main.py:112 | Each window starts at `max(0, end - overlap)` of the one before. |
| ChunkWindows.WindowsIncrease | lessons/02-rag-chatbot/backend/app/main.py:105-112 | Window starts and ends strictly increase, so the loop terminates. |
| ChunkWindows.WindowsReassemble | lessons/02-rag-chatbot/backend/app/main.py:103-112 | With `0 <= overlap < chunk_chars`, dropping each window's overlap with the one before rebuilds the whole cleaned text. No character is lost. |
| ChunkWindows.ChunksBounded | lessons/02-rag-chatbot/backend/app/main.py:95-113 | Every chunk is non-empty and at most `chunk_chars` long. There is no chunk exactly when the cleaned text is empty. |
| ChunkWindows.SlideWindows | lessons/02-rag-chatbot/backend/app/main.py:102-113 | The `while` loop returns the non-empty trimmed windows in window order. |
| ChunkWindows.ChunkText | lessons/02-rag-chatbot/backend/app/main.py:95-113 | `_chunk_text` returns exactly the specified chunks of the cleaned text. |
| Embedder.Sanitize | lessons/02-rag-chatbot/backend/app/main.py:121 | Every newline becomes a space and every other character is kept. |
| Embedder.BatchesOfTexts | lessons/02-rag-chatbot/backend/app/main.py:119-121 | The batches hold every text exactly once, sanitised and in order. Each batch holds 1 to 64 texts. |
| Embedder.EmbedTexts | lessons/02-rag-chatbot/backend/app/main.py:116-130 | The batch loop gives the specified result: the service's first exception, a shape mismatch, or the gathered vectors. |
| Embedder.EmbedResultShape | lessons/02-rag-chatbot/backend/app/main.py:128-130 | A connecting lemma that unfolds the shape check for the proofs that use an embedding: success means one vector per text, all of one length, and an empty list of texts is always a shape mismatch. |
| Embedder.EmbedFaithful | lessons/02-rag-chatbot/backend/app/main.py:116-130 | When the service answers every batch with one row per text, all rows of one common length, embedding a non-empty list of texts never fails and gives one vector per text. An empty list is always a shape error (`Embedder.EmbedResultShape`), and ragged rows fail as in the source. |
| Retriever.SortByScoreRanks | lessons/02-rag-chatbot/backend/app/main.py:139 | The ranking holds every chunk index exactly once, in non-increasing score order. |
| Retriever.TopKCorrect | lessons/02-rag-chatbot/backend/app/main.py:137-139 | The kept indices are distinct and ranked. No chunk left out scores higher than one kept. |
| Retriever.Retrieve | lessons/02-rag-chatbot/backend/app/main.py:134-140 | `min(top_k, n)` chunks come back: the `i`-th is the chunk at the `i`-th `TopK` position with its own score. Scores are non-increasing, and no chunk left out scores higher than one returned. |
| Sse.ParseEncode | lessons/02-rag-chatbot/backend/app/main.py:143-145 | An `event:`/`data:` frame with single-line fields reads back exactly, whatever follows it. |
| Sse.ParseRender | lessons/02-rag-chatbot/backend/app/main.py:143-145 | A body of such frames reads back as exactly those frames, in order. |
| Upstream.ResponseTextForwards | lessons/02-rag-chatbot/backend/app/main.py:304-308 | An unfolding of the Responses-API picker through one event. Only `response.output_text.delta` events with a non-empty delta are forwarded, and exactly that delta is forwarded. |
| Upstream.CompletionTextForwards | lessons/02-rag-chatbot/backend/app/main.py:315-324 | An unfolding of the Chat-Completions picker through one chunk. Some chunks are skipped: a chunk without choices, one whose first choice has no delta, and one with no or empty content. Any other chunk forwards its content. |
| Upstream.CollectAppend | lessons/01-text-chatbot/backend/app/main.py:125-148 | Forwarding is incremental: the events read one after another are forwarded as they are read. |
| Upstream.CollectNonEmpty | lessons/01-text-chatbot/backend/app/main.py:129 | When only non-empty texts are picked, nothing empty is forwarded. |
| Upstream.FragmentsNonEmpty | lessons/01-text-chatbot/backend/app/main.py:127-148 | No forwarded fragment is empty, on either API. |
| Requests.ParseRoleName | lessons/02-rag-chatbot/backend/app/main.py:47 | The client may send only `user` and `assistant`, and each parses back to itself. |
| Requests.ValidateMessages | lessons/02-rag-chatbot/backend/app/main.py:46-53 | A message list is accepted iff it is short enough and every message has a client role and a content of allowed length. Accepted messages keep their order, roles and contents. |
| Requests.RequireKey | lessons/02-rag-chatbot/backend/app/main.py:164-168 | The key guard passes iff the key has a non-space character. Otherwise the answer is 500 with the missing-key detail. |
| TextChatbot.ValidateRequest | lessons/01-text-chatbot/backend/app/main.py:32-39 | A body is accepted iff the specialization is 1 to 400 characters and there are at most 40 valid messages of at most 10000 characters each. Accepted messages keep their roles and contents. |
| TextChatbot.DeveloperPromptTopic | lessons/01-text-chatbot/backend/app/main.py:54-64 | The prompt opens with the introduction and a `TOPIC: ` line naming the specialization. The rules follow, one per line. |
| TextChatbot.BuildMessages | lessons/01-text-chatbot/backend/app/main.py:53-68 | The developer prompt comes first, then the client's messages, unchanged and in order. |
| TextChatbot.StreamBodyShape | lessons/01-text-chatbot/backend/app/main.py:116-151 | Without an exception the body is the non-empty fragments. With one, the fragments already sent stay and one `[ERROR]` line comes last. |
| TextChatbot.ChatStream | lessons/01-text-chatbot/backend/app/main.py:99-151 | A reply is served iff the body is valid and the key is set. An invalid body gets 422, a missing key 500. A served request sends the developer prompt for its topic, then the client's messages with roles and contents unchanged, and streams the stream body. |
| RagStore.ParseChunkIdRoundTrip | lessons/02-rag-chatbot/backend/app/main.py:191 | A chunk id `p<page>-c<n>` reads back as its page and position. |
| RagStore.ChunkIdInjective | lessons/02-rag-chatbot/backend/app/main.py:191 | Different (page, position) pairs never share a chunk id. |
| RagStore.PageChunks | lessons/02-rag-chatbot/backend/app/main.py:190-192 | A page's chunks carry its number, its texts in order and ids numbered from 1. |
| RagStore.PageTextsAt | lessons/02-rag-chatbot/backend/app/main.py:189-190 | A page's chunk texts are the chunks of its extracted text, with a missing text counting as empty. |
| RagStore.DocChunksLabelled | lessons/02-rag-chatbot/backend/app/main.py:187-198 | Page numbers lie in 1..pages, in page order. Ids are distinct and name their page, and texts are 1..`chunk_chars` long. There is no chunk iff every page cleans to nothing. |
| RagStore.AppendPage | lessons/02-rag-chatbot/backend/app/main.py:190-192 | The inner loop appends exactly the page's labelled chunks. |
| RagStore.LabelChunks | lessons/02-rag-chatbot/backend/app/main.py:187-192 | The page loop builds exactly the document's labelled chunks. |
| RagStore.HasPdfExtensionCases | lessons/02-rag-chatbot/backend/app/main.py:171 | A name is accepted iff its last four characters are `.pdf` in any ASCII case. |
| RagStore.ChunkTexts | lessons/02-rag-chatbot/backend/app/main.py:202 | The texts sent to the embedder are the chunk texts, in chunk order. |
| RagStore.IngestRejects | lessons/02-rag-chatbot/backend/app/main.py:162-204 | The upload checks, in order: missing key, not `.pdf`, unreadable (400), no pages. An exception from counting the pages, or from extracting any page once there are pages, escapes as a 500. Then comes no text. Each refusal happens iff the earlier checks pass and its own condition holds. An embedding failure comes only after all of them pass. |
| RagStore.IngestIndexed | lessons/02-rag-chatbot/backend/app/main.py:183-212 | A stored document was read without an exception on any page. It has a `.pdf` name, the reader's page count and the labelled chunks of all pages. It has one embedding row per chunk, all of one length. |
| RagStore.DocStore.constructor | lessons/02-rag-chatbot/backend/app/main.py:82 | The store starts empty. |
| RagStore.DocStore.Get | lessons/02-rag-chatbot/backend/app/main.py:235 | A lookup finds the stored document iff the id is present. |
| RagStore.DocStore.UploadPdf | lessons/02-rag-chatbot/backend/app/main.py:162-220 | A refused upload leaves the store unchanged and gives the refusal. A successful one writes exactly one entry under the new id. It answers with id, name, pages, chunk count and embedding model, and every stored document stays indexed. |
| RagChat.ValidateRequest | lessons/02-rag-chatbot/backend/app/main.py:46-53 | A body is accepted iff `doc_id` is 1 to 100 characters and there are at most 60 valid messages of at most 20000 characters each. An accepted body keeps the `doc_id` and every message, in order, with its role and its content. |
| RagChat.QueryIsLastUserMessage | lessons/02-rag-chatbot/backend/app/main.py:240-243 | There is no query iff no message is from `user`. Otherwise the query is the content of a user message after which no user message follows. |
| RagChat.QueryOfRawMessages | lessons/02-rag-chatbot/backend/app/main.py:240-243 | On an accepted body, stated over the raw JSON messages: there is no query iff no message has the role `"user"`. Otherwise the query is the content of a `"user"` message after which no `"user"` message follows. |
| RagChat.SourcesOf | lessons/02-rag-chatbot/backend/app/main.py:247-259 | One source per ranked chunk, with its chunk id, page, score and text. |
| RagChat.SourcesLabelled | lessons/02-rag-chatbot/backend/app/main.py:249-250 | Source labels are distinct, and the `i`-th reads `S` followed by `i`. |
| RagChat.SourcesFollowRanking | lessons/02-rag-chatbot/backend/app/main.py:246-260 | Sources keep the ranking's non-increasing score order. Each context entry starts with its label and page and ends with its chunk's text. |
| RagChat.BuildSources | lessons/02-rag-chatbot/backend/app/main.py:247-260 | The sources loop builds exactly the specified sources and context entries. |
| RagChat.ContextStartsWithBest | lessons/02-rag-chatbot/backend/app/main.py:262 | The context is empty iff nothing was retrieved. Otherwise it starts with the best chunk's entry. |
| RagChat.ModelInputShape | lessons/02-rag-chatbot/backend/app/main.py:264-280 | The model gets two entries: the developer prompt, then a user entry opening with `CONTEXT:` and the context and ending with `QUESTION:` and the query. |
| RagChat.RankedChunks | lessons/02-rag-chatbot/backend/app/main.py:134-140 | For a query embedding of the rows' length, `min(top_k, chunks)` chunks of the document come back: the `i`-th is the chunk at the `i`-th `TopK` position of the similarities, with its own similarity. Similarities are non-increasing, and no chunk left out is more similar than one returned. |
| RagChat.Deltas | lessons/02-rag-chatbot/backend/app/main.py:308 | One `delta` event per fragment, in order. |
| RagChat.GenerateOrder | lessons/02-rag-chatbot/backend/app/main.py:282-329 | `meta` comes first, then `sources`, then the non-empty fragments in order. One `error` follows iff the stream raised, and `done` is always last and only last. |
| RagChat.Frames | lessons/02-rag-chatbot/backend/app/main.py:285-329 | Each event becomes one frame with its event name and serialised payload. |
| RagChat.BodyParses | lessons/02-rag-chatbot/backend/app/main.py:143-145 | With single-line JSON payloads, a client splitting the streamed body recovers every event frame in order. |
| RagChat.Admit | lessons/02-rag-chatbot/backend/app/main.py:228-243 | An admitted request names a stored document and gets that document. |
| RagChat.ChatRejects | lessons/02-rag-chatbot/backend/app/main.py:228-243 | The refusals, in order: 422 invalid body, 500 missing key, 404 unknown `doc_id`, 400 no user message. Each happens iff the earlier checks pass and its own condition holds. |
| RagChat.ChatAfterAdmit | lessons/02-rag-chatbot/backend/app/main.py:135-136 | A connecting case split: an admission refusal is the reply. Past admission only the query embedding can fail, or `@` on a query embedding of another length than the stored rows (both escape as 500). |
| RagChat.ChatServes | lessons/02-rag-chatbot/backend/app/main.py:246-329 | A connecting lemma that unfolds a served request. The checks passed, and the query embedding has the rows' length. The model gets the prompt and the context of `RankedChunks`'s chunks, with the last user message as the question. The reply streams the events of `generate` with those chunks as sources. What the chunks are is `RagChat.RankedChunks`'s contract. |
| RagChat.HistoryNotForwarded | lessons/02-rag-chatbot/backend/app/main.py:240-280 | Two valid requests (each passing the body limits) for the same document with the same last user message get the same reply, whatever their other messages. |
| RagChat.ChatStream | lessons/02-rag-chatbot/backend/app/main.py:227-335 | The handler, reading the store, answers exactly as specified. |

## Left out

- HTTP plumbing is not modelled: FastAPI routing, CORS, response headers and media types, the `/health` endpoints, and `load_dotenv`. The settings are a parameter.
- The OpenAI client is not modelled; its results are parameters.
  - Embedding calls are the `embed` function.
  - A chat stream is a `Stream`: the events read, and the message of the exception that ended it, if any. An exception raised when the stream is opened counts as a stream with no event.
  - Whether the client has a `responses` attribute is the choice of stream kind.
- `PdfReader` and `extract_text` are not modelled. What they make of the upload is the `pdf` parameter (`RagStore.PdfRead`). It holds the constructor's exception message, or an exception from `len(reader.pages)`, or per page the text `extract_text()` returned (`None` where there is none) or an exception. Only the constructor is guarded; the other two exceptions escape as 500 "Internal Server Error". Reading the upload's bytes is left out, and so is the `content_type` test, which has no effect.
- RagStore.DocStore.UploadPdf checks that every page was extracted before it chunks any page. The source chunks each page right after extracting it. Chunking cannot raise, so both orders give the same answer and the same store.
- `uuid.uuid4().hex[:12]` is the `docId` parameter of `DocStore.UploadPdf`. A collision with a stored id overwrites it, as a dict assignment does.
- `time.time()` is the `latencyMs` parameter. The `latency_ms: None` field of `meta` carries no information and is not modelled.
- `json.dumps` is the `json` parameter of `RagChat.Frames`. `RagChat.BodyParses` assumes it yields single-line text, which `json.dumps` without indentation does.
- RagChat.RankedChunks: similarities are exact real dot products of the rows as the embedding service returned them. The source first divides each row, and the query, by its L2 norm (`_normalize_l2`, `lessons/02-rag-chatbot/backend/app/main.py:89-92`, applied at 131), so it ranks by cosine similarity and reports cosines as scores. Dividing the query by its norm does not change the order. The two orders agree when all stored rows have one common norm, as unit vectors do; otherwise they can differ. For example, with query (1, 0) and rows A = (0.6, 0.8) and B = (0.7, 2.0), the model ranks B first (0.7 > 0.6) while the source ranks A first (0.6 > 0.33). The float32 arithmetic and `round(score, 4)` in the sources are not modelled either.
- Retriever.Retrieve: ties between equal scores are broken by chunk index. `argpartition` promises no particular tie order, so no property depends on it.
- Retriever.Retrieve requires at least one score. A stored document always has a chunk (`RagStore.IngestIndexed`), so the handler never calls it without one.
- `RAG_TOP_K` is a `nat`. A negative value, which makes `argpartition` slice from the end, is not modelled.
- RagStore.Ingest requires `0 < RAG_CHUNK_CHARS` and `RAG_CHUNK_OVERLAP < RAG_CHUNK_CHARS`. With `RAG_CHUNK_OVERLAP >= RAG_CHUNK_CHARS` the `while` loop of `_chunk_text` stops advancing and never ends, on any page whose cleaned text is longer than `RAG_CHUNK_CHARS`. With `RAG_CHUNK_CHARS <= 0` and a smaller overlap the loop does end, but its slices then use Python's negative indices, which are not modelled.
- ChunkWindows.WindowsReassemble also requires `0 <= overlap`. A negative overlap skips characters between windows.
- `str.lower` is modelled on ASCII letters only. `Text.IsSpace` is exactly the set of characters Python's `str.isspace` accepts, the ones `strip()` removes.
- The embedding shape check: the model reports any ragged or missing vector as the shape mismatch. For a ragged list numpy raises its own error before the shape test. During an upload both give status 500, but the detail differs: the source's is `Embedding failed: ` followed by numpy's message, not by "Embedding shape mismatch.". For the query embedding both escape as the same 500 "Internal Server Error".
- Validation errors: the 422 response's pydantic error list is not modelled, only the status.
- RagChat.Chat: an exception while embedding the query escapes the handler. It is modelled as the refusal `QueryEmbeddingFailed`, answered with 500 "Internal Server Error". So is numpy's error when the query embedding's length differs from the stored rows' (`DimensionMismatch`).
- The non-streaming `chat` endpoint of the text chatbot (`lessons/01-text-chatbot/backend/app/main.py:71-96`) is not modelled. It repeats the key check and `_build_messages` and returns one upstream call's text.
- Concurrency between requests on the shared `DOCS` dictionary is not modelled. Each handler runs as one atomic step on the store.
- Order of events in the RAG stream: after an `error` event the `finally` clause still sends `done`. The model follows the code, so `done` comes last in every reply.
