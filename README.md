# Document ingestion and conversational retrieval, modelled in Dafny

This project models the core of a small document-ingestion and chat API. It is split into these parts:

- **Chunking** (`Chunking`): the two chunking strategies and the factory that picks one.
  - `_clean_text` collapses whitespace and strips the text.
  - The fixed-size strategy slides a window of `chunk_size` characters forward by `chunk_size - chunk_overlap`.
  - The semantic strategy splits the text into paragraphs and sentences, then accumulates sentences between the minimum `target // 2`, the target and the maximum `2 * target`.
  - `get_chunking_strategy` picks a strategy by its lower-cased name and fills in the defaults 500 and 50 (`Config`).
- **Conversation memory** (`Messages`, `RedisMemory`, `MockServices.MockRedisMemory`).
  - The in-memory stand-in for Redis is `InMemoryStore`, a map from key to list with `rpush`, `lrange`, `delete`, `exists` and `llen`.
  - `RedisMemoryManager` keeps one append-only message log per session under `chat_session:<id>`.
  - `MockRedisMemory` is the simpler mock store, with the same history window (`history[-n:]`) and rendering (`Role: content` lines).
- **The vector index** (`MockServices.MockQdrantManager`).
  - Per document it holds entries numbered from 0 within each `store_vectors` call, each keeping the first five embedding components.
  - Documents keep their dictionary insertion order.
  - Search takes the first `top_k` entries of each selected document, in insertion order, and then cuts the whole result to `top_k`. Every hit scores 0.85.
- **The chat turn** (`RagService`, `PromptTemplate`).
  - `chat` logs the question, retrieves, reads back the last ten messages, builds the prompt, generates the answer, logs the answer and reports the distinct source documents.
  - The prompt is the fixed template. It has numbered `[Context n]: text` blocks joined by blank lines and cut to 2000 characters plus `...`. The history section holds every message but the current one.
  - The response generator scans the prompt line by line:
    - a line starting with `[Context` starts collection, without itself being collected;
    - the `Current Question:` line stops collection;
    - the collected, stripped lines are joined, quoted up to 1000 characters, and followed by a "more information" note when the joined text is longer;
    - with nothing collected, the answer is the fixed apology.
- **Ingestion** (`DocumentService`).
  - `ingest_document` rejects missing text and texts that give no chunks. Otherwise it embeds the chunks, creates the document row, then stores the vectors. When storing fails it deletes the row again, so nothing stays written.
  - `delete_document` removes the vectors, then the row.

Imperative code keeps its form:
- The store, the managers, the index, the repository and the two services are classes whose methods update fields and declare what they modify.
- The source's loops are `while`/`for` loops. Each is proved against a specification function: the fixed-size window loop, the semantic accumulation loop, `store_vectors`, `search_similar` and the history formatting.

Besides the per-operation contracts, the model proves these properties:
- Cleaning is idempotent.
- After cleaning, a text is a single paragraph.
- Sentences rejoin to the cleaned text.
- Fixed-size windows cover the whole text when `0 <= overlap < size`.
- Semantic chunks rejoin to the cleaned text when the target is at least 2. Each chunk but the last meets the minimum.
- For both strategies, text has no chunks exactly when it is blank.
- Store-then-search returns the stored chunks in order, and a filtered search after deletion returns nothing.
- A chat turn appends exactly the question and the answer to its own session, and to no other.
- The prompt shows at most the nine messages before the current one.

It also proves what the response generator does to the prompt it is given, as written:
- When every retrieved text is a single line and the context is not cut, each `[Context n]:` line starts collection without being collected. What gets collected is the "Conversation History:" title and the earlier messages. So the answer is the same whichever documents were retrieved (`AnswerFromHistory`, `AnswerIgnoresDocuments`).
- On a session's first turn, the answer is the introduction followed by "Conversation History:" (`FirstTurnAnswer`).
- With nothing retrieved, the answer is the apology (`NoHitsNotFound`).

Four inputs are parameters of the model:
- the embedding model, an uninterpreted function `embed`;
- the parser's outcome, a `Result`;
- the id the uuid source picks, required to be fresh;
- whether the vector store raises.

## Model

| member | source | states |
|---|---|---|
| Chunking.CleanText | app/utils/chunking.py:69-73 | the cleaned text is normalised (single spaces only, no whitespace at either end), and it is empty exactly when the input is all whitespace |
| Chunking.CleanTextIdempotent | app/utils/chunking.py:69-73 | cleaning cleaned text changes nothing |
| Chunking.NormalizedClean | app/utils/chunking.py:142-146 | text that is already normalised is its own cleaning |
| Chunking.StripNonBlank | app/utils/chunking.py:152 | the `[p.strip() for p in ps if p.strip()]` filter keeps only non-empty stripped pieces, never more pieces than it was given |
| Chunking.StripNonBlankEmpty | app/utils/chunking.py:159 | the filter returns nothing exactly when every piece is blank |
| Chunking.StripNonBlankKeeps | app/utils/chunking.py:159 | pieces that are already non-empty and stripped pass through unchanged |
| Chunking.ParagraphBreakAt | app/utils/chunking.py:151 | a paragraph break matched at a position ends after it and within the text |
| Chunking.SentenceBreakAt | app/utils/chunking.py:158 | a sentence break is whitespace preceded by `.`, `!` or `?` and followed by a capital letter |
| Chunking.SplitParagraphs | app/utils/chunking.py:148-152 | every paragraph is non-empty and stripped |
| Chunking.SplitSentences | app/utils/chunking.py:154-159 | every sentence is non-empty and stripped |
| Chunking.ParagraphsOfCleanText | app/utils/chunking.py:103-106 | cleaned text has no line break left, so it is one paragraph, or none when it is empty |
| Chunking.SentenceBreakInNormalized | app/utils/chunking.py:158 | in cleaned text a sentence break is exactly one space between two non-space characters |
| Chunking.SentencesOfNormalized | app/utils/chunking.py:154-159 | joining the sentences of cleaned non-empty text with single spaces gives back the text |
| Chunking.FixedSizeChunkText | app/utils/chunking.py:29-67 | the while loop returns the stripped non-blank windows over the cleaned text (`FixedSizeChunks`), empty input giving none |
| Chunking.FixedSizeChunkBounds | app/utils/chunking.py:54-58 | every fixed-size chunk is non-empty and stripped, and with a positive size no longer than the size |
| Chunking.WindowStarts | app/utils/chunking.py:49-61 | with a positive step, window k is the slice starting at k * (size - overlap), every window starts inside the text, and the stop position reaches its end |
| Chunking.WindowsCoverText | app/utils/chunking.py:49-61 | with 0 <= overlap < size every character of the cleaned text lies inside some window |
| Chunking.WindowsDegenerate | app/utils/chunking.py:63-65 | when size <= overlap the loop takes exactly one window, the first `size` characters |
| Chunking.FixedSizeDegenerate | app/utils/chunking.py:63-65 | when size <= overlap there is at most one chunk, the stripped first window |
| Chunking.WindowsFirst | app/utils/chunking.py:49-54 | the first window of non-empty text starts at 0 |
| Chunking.FixedSizeEmptyIffBlank | app/utils/chunking.py:39-58 | with a positive size, fixed-size chunking returns nothing exactly when the text is empty or blank |
| Chunking.AddSentence | app/utils/chunking.py:115-134 | one sentence against the maximum, the minimum and the target: the new chunks and current chunk are those of `Step` |
| Chunking.AccumulateParagraphs | app/utils/chunking.py:108-138 | the nested loops over paragraphs and sentences, then the non-blank remainder, give `Finish(Fold(...))` over all sentences in order |
| Chunking.SemanticChunkText | app/utils/chunking.py:89-140 | the method returns `SemanticChunks`: nothing for empty input, otherwise the accumulation over the sentences of the cleaned paragraphs |
| Chunking.SemanticCoverage | app/utils/chunking.py:89-140 | with a target of at least 2, joining the chunks with single spaces reproduces the cleaned text: no sentence is lost, repeated or reordered |
| Chunking.SemanticChunkBounds | app/utils/chunking.py:116-131 | with a target of at least 2, every chunk is non-empty and stripped. It is at most twice the target, or a single sentence, or a short piece joined to a single sentence. Every chunk but the last has at least `target // 2` characters |
| Chunking.SemanticBlank | app/utils/chunking.py:99-103 | empty or blank text gives no semantic chunks, whatever the target |
| Chunking.SemanticEmptyIffBlank | app/utils/chunking.py:89-140 | with a target of at least 2, there are no chunks exactly when the text is blank |
| Chunking.FoldChunksPrefix | app/utils/chunking.py:115-134 | emitted chunks are never revised: the chunks after a prefix of the sentences are a prefix of the final chunks |
| Chunking.TinyTargetEmptyChunk | app/utils/chunking.py:119-127 | with a target of 1 or less and a first sentence longer than twice the target, the first chunk is the empty string |
| Chunking.GetChunkingStrategy | app/utils/chunking.py:162-183 | a strategy exactly for the lower-cased names "fixed_size" and "semantic", else the unknown-strategy error naming the input. Fixed-size takes the size or 500 and the overlap or 50 (zero counts as missing); semantic takes the size or 500 |
| Chunking.ChoiceResolves | app/schemas.py:7-9 | each enum value names a strategy, the fixed-size one exactly for `FIXED_SIZE` |
| Chunking.StrategySizesNonZero | app/utils/chunking.py:25-27 | the effective sizes of a resolved strategy are never zero |
| Chunking.StrategyCaseInsensitive | app/utils/chunking.py:178-180 | a name and its lower-cased spelling resolve to the same strategy |
| Chunking.ChunkText | app/utils/chunking.py:8-14 | dispatching `chunk_text` on a strategy returns that strategy's chunks |
| Chunking.BlankHasNoChunks | app/utils/chunking.py:39-40 | whatever the strategy, empty or blank text gives no chunks |
| Messages.Recent | app/utils/redis_memory.py:119-126 | a truthy n gives the last min(n, len) messages in order, and a negative n drops the first -n; a falsy n gives the whole log |
| Messages.RecentOfEmpty | app/utils/mock_services.py:65-73 | an empty log has no recent messages |
| Messages.Line | app/utils/redis_memory.py:175-177 | a rendered line is the capitalised role, ": " and the content, unchanged |
| Messages.Lines | app/utils/redis_memory.py:173-177 | one rendered line per message, in order |
| Messages.FormatHistory | app/utils/redis_memory.py:170-179 | "" exactly for an empty history |
| Messages.FormatHistoryLines | app/utils/redis_memory.py:173-179 | splitting a rendered history of one-line messages at newlines gives back exactly one line per message |
| Messages.RenderHistory | app/utils/redis_memory.py:170-179 | the loop over the messages renders them as `FormatHistory`: "" for none, otherwise one line per message joined by newlines |
| Messages.FormatHistorySnoc | app/utils/redis_memory.py:173-179 | rendering one more message appends a newline and its line |
| RedisMemory.InMemoryStore.Items | app/utils/redis_memory.py:26 | a missing key reads as the empty list |
| RedisMemory.InMemoryStore.RPush | app/utils/redis_memory.py:22-23 | the value is appended to the key's list (created if missing), and no other key changes |
| RedisMemory.InMemoryStore.LRange | app/utils/redis_memory.py:25-29 | the slice from start to end inclusive, with an end of -1 reaching the last element |
| RedisMemory.InMemoryStore.Delete | app/utils/redis_memory.py:31-35 | 1 exactly when the key was present, and afterwards it is gone |
| RedisMemory.InMemoryStore.Exists | app/utils/redis_memory.py:37-38 | 1 when the key is present, 0 otherwise |
| RedisMemory.InMemoryStore.LLen | app/utils/redis_memory.py:40-41 | the length of the key's list, 0 for a missing key |
| RedisMemory.SessionKey | app/utils/redis_memory.py:74-76 | the key is the prefix `chat_session:` followed by the session id |
| RedisMemory.SessionKeyInjective | app/utils/redis_memory.py:74-76 | two sessions share a key exactly when they are the same session |
| RedisMemory.RedisMemoryManager.AddMessage | app/utils/redis_memory.py:78-99 | exactly one message with that role and content is appended to the session's log, and every other session's log is unchanged |
| RedisMemory.RedisMemoryManager.GetConversationHistory | app/utils/redis_memory.py:104-128 | the recent window of the session's log, as `Recent` |
| RedisMemory.RedisMemoryManager.ClearSession | app/utils/redis_memory.py:130-141 | true exactly when the session had a log; afterwards it has none and the other sessions are unchanged |
| RedisMemory.RedisMemoryManager.SessionExists | app/utils/redis_memory.py:143-146 | whether the session has a log |
| RedisMemory.RedisMemoryManager.GetMessageCount | app/utils/redis_memory.py:148-151 | the length of the session's log, 0 for an unknown session |
| RedisMemory.RedisMemoryManager.FormatHistoryForPrompt | app/utils/redis_memory.py:153-179 | the recent window of the session's log, rendered as `FormatHistory` |
| MockServices.Head5 | app/utils/mock_services.py:21 | the stored embedding is the first min(5, len) components |
| MockServices.ZipLength | app/utils/mock_services.py:17 | `zip` stops at the shorter list |
| MockServices.NewEntries | app/utils/mock_services.py:17-22 | entry k of a batch has index k, the k-th chunk and the head of the k-th embedding |
| MockServices.HitsOf | app/utils/mock_services.py:32-38 | one hit per entry, same text and index, the document's id, score 0.85 |
| MockServices.AllHits | app/utils/mock_services.py:29-38 | every hit scores 0.85 and belongs to a listed document the filter selects |
| MockServices.Search | app/utils/mock_services.py:26-39 | at most `top_k` hits for a non-negative `top_k`, each scored 0.85, each from a stored document the filter selects |
| MockServices.Remove | app/utils/mock_services.py:43-44 | the id leaves the key order and every other id stays |
| MockServices.MockQdrantManager.StoreVectors | app/utils/mock_services.py:12-24 | the zipped pairs are appended, numbered from 0, after the document's earlier entries. A new document goes last in key order. It returns `len(chunks)`, and the key order stays in step with the stored documents |
| MockServices.MockQdrantManager.SearchSimilar | app/utils/mock_services.py:26-39 | the nested loops return `Search` over the current state |
| MockServices.MockQdrantManager.DeleteByDocumentId | app/utils/mock_services.py:41-46 | true exactly when the document was stored, its entries and key go, and the rest keep entries and order |
| MockServices.AppendHits | app/utils/mock_services.py:32-38 | the inner loop appends the entries' hits in order |
| MockServices.RemoveDistinct | app/utils/mock_services.py:41-46 | deleting an id keeps the key order free of repeats |
| MockServices.RemoveAbsent | app/utils/mock_services.py:41-46 | deleting an absent id leaves the key order as it was |
| MockServices.AllHitsFiltered | app/utils/mock_services.py:29-31 | with a document filter only that document's entries are visited |
| MockServices.SearchFiltered | app/utils/mock_services.py:26-39 | a search filtered on a stored document returns its first `top_k` entries in order, and a search filtered on any other id returns nothing |
| MockServices.SearchAfterDelete | app/utils/mock_services.py:41-46 | after deletion a search filtered on the document returns nothing |
| MockServices.StoreThenSearch | app/utils/mock_services.py:12-39 | storing a new document and searching for it gives back its first `top_k` chunks, numbered from 0, each scored 0.85 |
| MockServices.MockRedisMemory.AddMessage | app/utils/mock_services.py:55-63 | one message is appended to the session's log, created if missing, and the other sessions are unchanged |
| MockServices.MockRedisMemory.GetConversationHistory | app/utils/mock_services.py:65-73 | nothing for an unknown session, otherwise the recent window as `Recent` |
| MockServices.MockRedisMemory.ClearSession | app/utils/mock_services.py:75-80 | true exactly when the session existed, and afterwards it does not |
| MockServices.MockRedisMemory.SessionExists | app/utils/mock_services.py:82-84 | whether the session exists |
| MockServices.MockRedisMemory.GetMessageCount | app/utils/mock_services.py:86-88 | the length of the session's log, 0 for an unknown one |
| MockServices.MockRedisMemory.FormatHistoryForPrompt | app/utils/mock_services.py:90-103 | the recent window of the session's log, rendered as `FormatHistory` |
| RagService.ContextBlocks | app/services/rag_service.py:104-107 | one `[Context n]: text` block per hit, numbered from 1 in hit order |
| RagService.ContextString | app/services/rag_service.py:109-113 | the joined blocks when they fit in 2000 characters, otherwise their first 2000 characters and "..." |
| RagService.Earlier | app/services/rag_service.py:117-119 | every message but the last, none for at most one message |
| RagService.ContextBlock | app/services/rag_service.py:104-107 | a block starts with `[Context` and ends with the hit's text |
| RagService.RawContext | app/services/rag_service.py:109 | the joined blocks are empty exactly when there are no hits |
| RagService.HistorySection | app/services/rag_service.py:115-123 | the history section renders exactly the earlier messages |
| RagService.QuestionLine | app/services/rag_service.py:134 | the question line starts with `Current Question:`, followed by a space and the user's message |
| RagService.BuildPrompt | app/services/rag_service.py:86-145 | for a one-line question, the prompt's lines are the template's fixed lines with the context and history sections' own lines in their places (proved by PromptSplit) |
| RagService.ScanLine | app/services/rag_service.py:165-172 | a `[Context` line opens collection, a `Current Question:` line closes it, any other line leaves it as it was; while open, a plain line is collected stripped, and otherwise nothing is collected |
| RagService.ScanFrom | app/services/rag_service.py:165-172 | the loop only appends: the lines collected before are kept, and at most one is added per line scanned |
| RagService.GenerateResponse | app/services/rag_service.py:147-190 | the answer is the apology, or the introduction followed by at most 1000 quoted characters and the note; Respond, NoContextNotFound and ScanPrompt say which |
| RagService.Respond | app/services/rag_service.py:174-190 | the apology for no collected lines; otherwise the introduction, the first 1000 characters of the space-joined lines, and the note exactly when they are longer |
| RagService.ScanAppend | app/services/rag_service.py:165-172 | scanning two runs of lines is scanning one after the other |
| RagService.ScanIdle | app/services/rag_service.py:165-172 | before collection starts, lines not starting with `[Context` change nothing |
| RagService.ScanCollect | app/services/rag_service.py:171-172 | while collecting, plain lines are collected stripped, one for one |
| RagService.ScanContext | app/services/rag_service.py:166-167 | context block lines start collection and are not themselves collected |
| RagService.PromptSplit | app/services/rag_service.py:126-143 | the prompt's lines are the template's fixed lines with the context and history sections' own lines in their places |
| RagService.NoContextNotFound | app/services/rag_service.py:165-190 | a prompt with no `[Context` line is answered with the apology |
| RagService.ScanPrompt | app/services/rag_service.py:158-172 | scanning a prompt over single-line hits collects the history title and the earlier messages' lines, and ends with collection stopped |
| RagService.AnswerFromHistory | app/services/rag_service.py:147-190 | under those conditions the answer is built from the history title and the earlier messages alone |
| RagService.AnswerIgnoresDocuments | app/services/rag_service.py:147-190 | under those conditions two different sets of hits give the same answer |
| RagService.FirstTurnAnswer | app/services/rag_service.py:147-185 | on a session's first message the answer is the introduction and "Conversation History:" |
| RagService.NoHitsNotFound | app/services/rag_service.py:186-190 | with nothing retrieved the answer is the apology |
| RagService.DocumentIds | app/services/rag_service.py:61 | the document id of every hit, in order |
| RagService.Distinctly | app/services/rag_service.py:61 | `list(set(ids))`: no repeats, and exactly the ids that occur |
| RagService.ChatHistoryWindow | app/services/rag_service.py:42-45 | with a window of ten that ends with the current message, the prompt shows the last min(9, n) earlier messages |
| RagService.ChatService.RetrieveContext | app/services/rag_service.py:65-84 | the top-5 search over all stored documents |
| RagService.ChatService.Answer | app/services/rag_service.py:35-55 | the question is logged first; the answer is generated from the prompt over the retrieved hits and the last ten messages including the question; other sessions' logs and whether they exist do not change |
| RagService.ChatService.Conclude | app/services/rag_service.py:57-61 | the answer is appended to the session's log and no other session's log or existence changes; the sources are the distinct documents of the hits |
| RagService.ChatService.Chat | app/services/rag_service.py:20-63 | the session's log grows by exactly the question and then the answer, and other sessions' logs and whether they exist do not change. The answer is that of the prompt. The sources are the distinct documents of the retrieved hits |
| RagService.ChatService.ClearSession | app/services/rag_service.py:192-194 | whether the session had a log; afterwards it has none, and other sessions' logs and whether they exist do not change |
| RagService.ChatService.GetSessionHistory | app/services/rag_service.py:196-198 | the session's whole log, oldest first |
| DocumentService.DocumentRepository.CreateDocument | app/repositories/document_repository.py:14-30 | a row under the fresh id with the filename and chunk count, nothing else changed |
| DocumentService.DocumentRepository.GetDocumentById | app/repositories/document_repository.py:32-36 | the row under the id, or none |
| DocumentService.DocumentRepository.DeleteDocument | app/repositories/document_repository.py:42-49 | true exactly when the row existed, and afterwards it does not |
| DocumentService.StrategyFor | app/services/document_service.py:48-52 | the enum value resolves to its strategy with the given sizes or the defaults |
| DocumentService.PlanChunks | app/services/document_service.py:42-56 | the parser's error, "no text" for empty text, "no chunks" when chunking gives none, otherwise the chunks |
| DocumentService.BlankTextHasNoChunks | app/services/document_service.py:44-56 | non-empty blank text passes the text check and fails with "no chunks", whatever the strategy |
| DocumentService.TextHasSemanticChunks | app/services/document_service.py:48-56 | text with a non-space character always gets semantic chunks when the size is missing, zero or at least 2 |
| DocumentService.EmbedBatch | app/services/document_service.py:59 | one embedding per chunk, in order |
| DocumentService.StoredEntries | app/utils/mock_services.py:17-22 | entry k holds index k, chunk k and the head of its embedding |
| DocumentService.IngestionService.Record | app/services/document_service.py:58-81 | when storing succeeds, the row and the entries are written and the id goes last in key order; when it fails, the row is deleted again and both stores are as before |
| DocumentService.IngestionService.IngestDocument | app/services/document_service.py:20-83 | each rejected input gives its own error and writes nothing. A failed store gives the store error and leaves everything as before. Otherwise it returns the fresh id and the chunk count, with the row written and every chunk stored |
| DocumentService.IngestionService.DeleteDocument | app/services/document_service.py:93-99 | the document's vectors and row are both gone, the rest is kept, and the result says whether the row existed |
| DocumentService.IngestionService.IngestThenDelete | app/services/document_service.py:20-99 | ingesting and then deleting under the new id: the delete finds a row exactly when ingestion succeeded, and the row and vector stores end exactly as they began |
| DocumentService.IngestDeleteRoundTrip | app/services/document_service.py:93-99 | deleting a just-ingested document gives back both stores exactly as before ingestion |

## Left out

- The real Redis client, its connection attempt and `expire`/TTL: the model follows the in-memory path, and a TTL needs a clock.
- JSON encoding of stored messages: the store holds message values, and encoding then decoding is taken as the identity.
- `MockEmbeddingManager` and the real embedding model: embeddings are an uninterpreted function `embed`. The mock index ignores the query embedding anyway.
- `QdrantManager`, the real vector database: the services use the in-memory index.
- The document parser, SQL sessions and commits, `file_path` (always `None` here), `get_document` and `list_documents` of the service, HTTP routers, and `async`.
- Uuid freshness is a precondition (`freshId` is unused in both stores), not a random draw.
- DocumentService.IngestionService.IngestDocument: a failing vector store is modelled as raising before any write. A real backend that fails halfway could leave vectors behind, and that is not modelled.
- DocumentService.IngestionService.Record: the model takes the source's mismatch check (`stored_count != len(chunks)`) into account but never reaches it, because the in-memory index always reports `len(chunks)`.
- RagService.GenerateResponse: the unused `question` extracted from the question line is not modelled, because it never reaches the answer.
- RagService.Distinctly: `list(set(...))` has no defined order, so only distinctness and membership are stated.
- RagService.AnswerFromHistory, RagService.AnswerIgnoresDocuments, RagService.FirstTurnAnswer, RagService.NoHitsNotFound: these assume single-line hit texts and messages, and a context that is not cut. Multi-line texts are not covered.
- Chunking.SemanticCoverage, Chunking.SemanticChunkBounds, Chunking.SemanticEmptyIffBlank: these assume a target of at least 2. Below that the minimum `target // 2` is not positive, and `TinyTargetEmptyChunk` shows the empty chunk that then appears.
- Chunking.FixedSizeChunkText: an overlap at least the size is not an error. The code takes one window and stops instead of raising a configuration error, and the model follows the code.
- `chunk_index` restarts at 0 on every `store_vectors` call, even for a document that already has entries. The model keeps this.
- Python's `capitalize` and `lower` are modelled on ASCII letters only. Whitespace is the full set that `str.isspace` and `\s` accept. The regular expressions for whitespace runs, paragraph breaks and sentence breaks are written out as scanners over characters.
- The prompt template's long lines are built from shorter literals. They are the same strings.
- Returned lists are values: aliasing between a returned history and the stored log is not modelled.
