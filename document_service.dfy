/**
 * Document ingestion (app/services/document_service.py): parse, chunk, embed, record the
 * document, store its vectors, and take the record back when the vectors cannot be stored.
 */
module DocumentService {
  import opened Wrappers
  import opened Text
  import opened Chunking
  import opened MockServices

  // ---------------------------------------------------------------------------
  // The metadata table
  // ---------------------------------------------------------------------------

  /** The columns of a document row this model keeps. */
  datatype DocumentRow = DocumentRow(filename: string, totalChunks: int)

  /** The documents table, as a map from document id to its row. */
  class DocumentRepository {
    var rows: map<string, DocumentRow>

    constructor()
      ensures rows == map[]
    {
      rows := map[];
    }

    /** `create_document` with the id the model's uuid source picked, one not yet in use. */
    method CreateDocument(freshId: string, filename: string, totalChunks: int) returns (documentId: string)
      requires freshId !in rows
      modifies this
      ensures documentId == freshId
      ensures rows == old(rows)[freshId := DocumentRow(filename, totalChunks)]
    {
      rows := rows[freshId := DocumentRow(filename, totalChunks)];
      documentId := freshId;
    }

    /** `get_document_by_id`. */
    method GetDocumentById(documentId: string) returns (row: Option<DocumentRow>)
      ensures documentId in rows ==> row == Some(rows[documentId])
      ensures documentId !in rows ==> row == None
    {
      if documentId in rows {
        row := Some(rows[documentId]);
      } else {
        row := None;
      }
    }

    /** `delete_document`: whether there was a row; afterwards there is none. */
    method DeleteDocument(documentId: string) returns (deleted: bool)
      modifies this
      ensures deleted == (documentId in old(rows))
      ensures rows == old(rows) - {documentId}
    {
      var row := GetDocumentById(documentId);
      if row.Some? {
        rows := rows - {documentId};
        return true;
      }
      assert rows - {documentId} == rows;
      return false;
    }
  }

  // ---------------------------------------------------------------------------
  // What ingestion does with the text
  // ---------------------------------------------------------------------------

  /** The `ValueError`s ingestion raises. */
  datatype IngestError =
    | ParseFailed(message: string)
    | NoText
    | NoChunks
    | StoreFailed

  /** The strategy an enum value selects, with the caller's sizes or the defaults. */
  function StrategyFor(choice: StrategyChoice, chunkSize: Option<int>, chunkOverlap: Option<int>): (s: Strategy)
    ensures s.FixedSize? <==> choice == FixedSizeChoice
    ensures s == GetChunkingStrategy(choice.Value(), chunkSize, chunkOverlap).value
  {
    ChoiceResolves(choice, chunkSize, chunkOverlap);
    GetChunkingStrategy(choice.Value(), chunkSize, chunkOverlap).value
  }

  /**
   * The chunks ingestion stores for a parse outcome, or the error it raises before any write:
   * the parser's own error, no text, or no chunks.
   */
  function PlanChunks(parsed: Result<string, string>, choice: StrategyChoice,
                      chunkSize: Option<int>, chunkOverlap: Option<int>): (r: Result<seq<string>, IngestError>)
    ensures parsed.Err? ==> r == Err(ParseFailed(parsed.error))
    ensures parsed == Ok([]) ==> r == Err(NoText)
    ensures parsed.Ok? && parsed.value != [] ==>
              var chunks := StrategyChunks(StrategyFor(choice, chunkSize, chunkOverlap), parsed.value);
              r == if chunks == [] then Err(NoChunks) else Ok(chunks)
  {
    if parsed.Err? then Err(ParseFailed(parsed.error))
    else if parsed.value == [] then Err(NoText)
    else
      var chunks := StrategyChunks(StrategyFor(choice, chunkSize, chunkOverlap), parsed.value);
      if chunks == [] then Err(NoChunks) else Ok(chunks)
  }

  /**
   * Text that is only whitespace gets past the "no text" check and then yields no chunks,
   * whichever strategy and sizes are chosen.
   */
  lemma BlankTextHasNoChunks(text: string, choice: StrategyChoice, chunkSize: Option<int>, chunkOverlap: Option<int>)
    requires text != [] && AllSpace(text)
    ensures PlanChunks(Ok(text), choice, chunkSize, chunkOverlap) == Err(NoChunks)
  {
    BlankHasNoChunks(StrategyFor(choice, chunkSize, chunkOverlap), text);
  }

  /** Text with a non-space character always yields chunks with the semantic strategy's default size. */
  lemma TextHasSemanticChunks(text: string, chunkSize: Option<int>, chunkOverlap: Option<int>)
    requires !AllSpace(text)
    requires chunkSize.None? || chunkSize.value == 0 || chunkSize.value >= 2
    ensures PlanChunks(Ok(text), SemanticChoice, chunkSize, chunkOverlap).Ok?
  {
    var s := StrategyFor(SemanticChoice, chunkSize, chunkOverlap);
    SemanticEmptyIffBlank(text, s.targetChunkSize);
  }

  /** The embedding of every chunk, in order (`embed_batch`). */
  function EmbedBatch(embed: string -> seq<real>, chunks: seq<string>): (r: seq<seq<real>>)
    ensures |r| == |chunks|
    ensures forall k :: 0 <= k < |chunks| ==> r[k] == embed(chunks[k])
  {
    seq(|chunks|, k requires 0 <= k < |chunks| => embed(chunks[k]))
  }

  /** The entries `store_vectors` writes for the chunks of a new document. */
  function StoredEntries(embed: string -> seq<real>, chunks: seq<string>): (r: seq<Entry>)
    ensures |r| == |chunks|
    ensures forall k :: 0 <= k < |chunks| ==> r[k] == Entry(k, chunks[k], Head5(embed(chunks[k])))
  {
    NewEntries(chunks, EmbedBatch(embed, chunks), |chunks|)
  }

  // ---------------------------------------------------------------------------
  // The service
  // ---------------------------------------------------------------------------

  /** `DocumentIngestionService` over the metadata table and the vector store. */
  class IngestionService {
    const repo: DocumentRepository
    const index: MockQdrantManager
    /** The embedding model; the embedding manager is not part of this model. */
    const embed: string -> seq<real>

    constructor(repo: DocumentRepository, index: MockQdrantManager, embed: string -> seq<real>)
      ensures this.repo == repo && this.index == index && this.embed == embed
    {
      this.repo := repo;
      this.index := index;
      this.embed := embed;
    }

    /**
     * The writes of `ingest_document` once the chunks are known: the row, then the vectors;
     * when the vector store raises (`storeFails`) or stores fewer entries than chunks, the row
     * is deleted again and nothing remains written.
     */
    method Record(filename: string, freshId: string, chunks: seq<string>, storeFails: bool)
      returns (stored: bool)
      requires index.Valid()
      requires freshId !in repo.rows && freshId !in index.vectors
      modifies repo, index
      ensures index.Valid()
      ensures stored == !storeFails
      ensures stored ==> && repo.rows == old(repo.rows)[freshId := DocumentRow(filename, |chunks|)]
                         && index.vectors == old(index.vectors)[freshId := StoredEntries(embed, chunks)]
                         && index.order == old(index.order) + [freshId]
      ensures !stored ==> && repo.rows == old(repo.rows) && index.vectors == old(index.vectors)
                          && index.order == old(index.order)
    {
      var embeddings := EmbedBatch(embed, chunks);
      var documentId := repo.CreateDocument(freshId, filename, |chunks|);
      var failed := storeFails;
      if !failed {
        var count := index.StoreVectors(documentId, chunks, embeddings);
        failed := count != |chunks|;
        assert EntriesOf(old(index.vectors), freshId) == [];
        assert ZipLength(chunks, embeddings) == |chunks|;
        assert [] + StoredEntries(embed, chunks) == StoredEntries(embed, chunks);
      }
      if failed {
        var _ := repo.DeleteDocument(documentId);
        assert old(repo.rows)[freshId := DocumentRow(filename, |chunks|)] - {freshId} == old(repo.rows);
      }
      stored := !failed;
    }

    /**
     * `ingest_document`. `parsed` is what the parser returned or raised, `freshId` the id the
     * uuid source picks (in use in neither store), and `storeFails` whether the vector store
     * raises instead of storing.
     */
    method IngestDocument(filename: string, parsed: Result<string, string>, choice: StrategyChoice,
                          chunkSize: Option<int>, chunkOverlap: Option<int>,
                          freshId: string, storeFails: bool)
      returns (r: Result<(string, int), IngestError>)
      requires index.Valid()
      requires freshId !in repo.rows && freshId !in index.vectors
      modifies repo, index
      ensures index.Valid()
      ensures PlanChunks(parsed, choice, chunkSize, chunkOverlap).Err? ==>
                r == Err(PlanChunks(parsed, choice, chunkSize, chunkOverlap).error)
      ensures PlanChunks(parsed, choice, chunkSize, chunkOverlap).Ok? && storeFails ==> r == Err(StoreFailed)
      ensures PlanChunks(parsed, choice, chunkSize, chunkOverlap).Ok? && !storeFails ==>
                var chunks := PlanChunks(parsed, choice, chunkSize, chunkOverlap).value;
                && r == Ok((freshId, |chunks|))
                && repo.rows == old(repo.rows)[freshId := DocumentRow(filename, |chunks|)]
                && index.vectors == old(index.vectors)[freshId := StoredEntries(embed, chunks)]
                && index.order == old(index.order) + [freshId]
      ensures r.Err? ==>
                repo.rows == old(repo.rows) && index.vectors == old(index.vectors) && index.order == old(index.order)
    {
      if parsed.Err? {
        return Err(ParseFailed(parsed.error));
      }
      var text := parsed.value;
      if text == [] {
        return Err(NoText);
      }
      var chunks := ChunkText(StrategyFor(choice, chunkSize, chunkOverlap), text);
      if chunks == [] {
        return Err(NoChunks);
      }
      var stored := Record(filename, freshId, chunks, storeFails);
      if !stored {
        return Err(StoreFailed);
      }
      return Ok((freshId, |chunks|));
    }

    /** `delete_document`: the vectors go first, then the row; whether there was a row. */
    method DeleteDocument(documentId: string) returns (deleted: bool)
      requires index.Valid()
      modifies repo, index
      ensures index.Valid()
      ensures index.vectors == old(index.vectors) - {documentId}
      ensures index.order == Remove(old(index.order), documentId)
      ensures deleted == (documentId in old(repo.rows))
      ensures repo.rows == old(repo.rows) - {documentId}
    {
      var _ := index.DeleteByDocumentId(documentId);
      deleted := repo.DeleteDocument(documentId);
    }

    /**
     * Ingesting a document and then deleting it under the id it was given: the delete finds
     * a row exactly when the ingestion succeeded, and both stores end as they began.
     */
    method IngestThenDelete(filename: string, parsed: Result<string, string>, choice: StrategyChoice,
                            chunkSize: Option<int>, chunkOverlap: Option<int>,
                            freshId: string, storeFails: bool)
      returns (r: Result<(string, int), IngestError>, deleted: bool)
      requires index.Valid()
      requires freshId !in repo.rows && freshId !in index.vectors
      modifies repo, index
      ensures index.Valid()
      ensures deleted <==> r.Ok?
      ensures repo.rows == old(repo.rows) && index.vectors == old(index.vectors) && index.order == old(index.order)
    {
      ghost var rows, vectors, order := repo.rows, index.vectors, index.order;
      r := IngestDocument(filename, parsed, choice, chunkSize, chunkOverlap, freshId, storeFails);
      assert Undone(rows, vectors, order, repo.rows, index.vectors, index.order, freshId, r.Ok?) by {
        if r.Ok? {
          IngestDeleteRoundTrip(rows, vectors, order, freshId, repo.rows[freshId], index.vectors[freshId]);
        } else {
          RemoveAbsent(order, freshId);
        }
      }
      deleted := DeleteDocument(freshId);
    }
  }

  /**
   * Deleting `documentId` from the stores `rows1`, `vectors1`, `order1` gives back `rows`,
   * `vectors`, `order`, and finds a row exactly when `present`.
   */
  ghost predicate Undone(rows: map<string, DocumentRow>, vectors: map<string, seq<Entry>>, order: seq<string>,
                         rows1: map<string, DocumentRow>, vectors1: map<string, seq<Entry>>, order1: seq<string>,
                         documentId: string, present: bool)
  {
    && (documentId in rows1 <==> present)
    && rows1 - {documentId} == rows
    && vectors1 - {documentId} == vectors
    && Remove(order1, documentId) == order
  }

  /** Deleting a just-ingested document gives back both stores as they were before. */
  lemma IngestDeleteRoundTrip(rows: map<string, DocumentRow>, vectors: map<string, seq<Entry>>,
                              order: seq<string>, documentId: string, row: DocumentRow, entries: seq<Entry>)
    requires documentId !in rows && documentId !in vectors && documentId !in order
    ensures rows[documentId := row] - {documentId} == rows
    ensures vectors[documentId := entries] - {documentId} == vectors
    ensures Remove(order + [documentId], documentId) == order
  {
    assert (order + [documentId])[..|order|] == order;
    RemoveAbsent(order, documentId);
  }
}
