/**
 * The in-memory vector index the application is wired to, and the simpler in-memory
 * session log (app/utils/mock_services.py).
 */
module MockServices {
  import opened Wrappers
  import opened Slices
  import opened Text
  import opened Messages

  /** One stored chunk: its position in the batch that stored it, its text, and a short embedding. */
  datatype Entry = Entry(chunkIndex: int, text: string, embedding: seq<real>)

  /** One search result. */
  datatype Hit = Hit(text: string, documentId: string, chunkIndex: int, score: real)

  /** The similarity score the index gives every hit. */
  const MockScore: real := 0.85

  /** `embedding[:5] if embedding else []`: the first five components at most. */
  function Head5(e: seq<real>): (r: seq<real>)
    ensures |r| == if |e| < 5 then |e| else 5
    ensures r == e[..|r|]
  {
    if e != [] then Slice(e, 0, 5) else []
  }

  /** The number of pairs `zip` forms from two lists: the shorter one decides. */
  function ZipLength(chunks: seq<string>, embeddings: seq<seq<real>>): (n: nat)
    ensures n <= |chunks| && n <= |embeddings|
    ensures n == |chunks| || n == |embeddings|
  {
    if |chunks| < |embeddings| then |chunks| else |embeddings|
  }

  /** The entries a `store_vectors` call appends for its first n zipped pairs. */
  function NewEntries(chunks: seq<string>, embeddings: seq<seq<real>>, n: nat): (r: seq<Entry>)
    requires n <= |chunks| && n <= |embeddings|
    ensures |r| == n
    ensures forall k :: 0 <= k < n ==> r[k] == Entry(k, chunks[k], Head5(embeddings[k]))
  {
    seq(n, k requires 0 <= k < n => Entry(k, chunks[k], Head5(embeddings[k])))
  }

  /** One more zipped pair appends its entry. */
  lemma NewEntriesSnoc(chunks: seq<string>, embeddings: seq<seq<real>>, n: nat)
    requires n < |chunks| && n < |embeddings|
    ensures NewEntries(chunks, embeddings, n + 1)
            == NewEntries(chunks, embeddings, n) + [Entry(n, chunks[n], Head5(embeddings[n]))]
  {
  }

  /** Whether `document_id` lets a document through: no filter, or an empty-string filter, lets everything through. */
  predicate Selected(docId: string, filter: Option<string>) {
    filter.None? || filter.value == [] || filter.value == docId
  }

  /** The entries under a document id, or none. */
  function EntriesOf(vectors: map<string, seq<Entry>>, docId: string): seq<Entry> {
    if docId in vectors then vectors[docId] else []
  }

  /** The hits for a list of entries of one document. */
  function HitsOf(docId: string, entries: seq<Entry>): (r: seq<Hit>)
    ensures |r| == |entries|
    ensures forall k :: 0 <= k < |r| ==>
              r[k] == Hit(entries[k].text, docId, entries[k].chunkIndex, MockScore)
  {
    seq(|entries|, k requires 0 <= k < |entries| => Hit(entries[k].text, docId, entries[k].chunkIndex, MockScore))
  }

  /** What one document contributes: its first `top_k` entries, when the filter selects it. */
  function DocHits(vectors: map<string, seq<Entry>>, docId: string, topK: int, filter: Option<string>): seq<Hit> {
    if Selected(docId, filter) then HitsOf(docId, Slice(EntriesOf(vectors, docId), 0, topK)) else []
  }

  /** The hits of the documents in `docs`, document by document, before the final cut. */
  function AllHits(docs: seq<string>, vectors: map<string, seq<Entry>>, topK: int, filter: Option<string>)
    : (r: seq<Hit>)
    ensures forall k :: 0 <= k < |r| ==>
              r[k].score == MockScore && r[k].documentId in docs && Selected(r[k].documentId, filter)
  {
    if docs == [] then []
    else
      var init := docs[..|docs| - 1];
      var rest := AllHits(init, vectors, topK, filter);
      var last := DocHits(vectors, docs[|docs| - 1], topK, filter);
      assert forall k :: 0 <= k < |rest| ==> rest[k].documentId in docs by {
        assert forall d :: d in init ==> d in docs;
      }
      rest + last
  }

  /**
   * `search_similar`'s result: documents in insertion order, each contributing its first
   * `top_k` selected entries, the whole cut to `top_k`. Every hit scores 0.85 and belongs
   * to a selected document; there are never more than `top_k` hits.
   */
  function Search(order: seq<string>, vectors: map<string, seq<Entry>>, topK: int, filter: Option<string>)
    : (r: seq<Hit>)
    ensures topK >= 0 ==> |r| <= topK
    ensures forall k :: 0 <= k < |r| ==>
              r[k].score == MockScore && r[k].documentId in order && Selected(r[k].documentId, filter)
  {
    var all := AllHits(order, vectors, topK, filter);
    assert forall h :: h in Slice(all, 0, topK) ==> h in all;
    Slice(all, 0, topK)
  }

  /** `del vectors[document_id]` on the key order: every other id keeps its place. */
  function Remove(order: seq<string>, docId: string): (r: seq<string>)
    ensures docId !in r
    ensures forall d :: d != docId ==> (d in r <==> d in order)
    ensures |r| <= |order|
  {
    if order == [] then []
    else
      var init := Remove(order[..|order| - 1], docId);
      var last := order[|order| - 1];
      assert forall d :: d in order ==> d in order[..|order| - 1] || d == last;
      init + (if last == docId then [] else [last])
  }

  /** No id occurs twice. */
  ghost predicate Distinct(order: seq<string>) {
    forall i, j :: 0 <= i < j < |order| ==> order[i] != order[j]
  }

  /** `MockQdrantManager`: entries per document, with the documents' first-insertion order. */
  class MockQdrantManager {
    /** The dictionary's keys in insertion order. */
    var order: seq<string>
    var vectors: map<string, seq<Entry>>

    /** The key order lists exactly the stored documents, once each. */
    ghost predicate Valid()
      reads this
    {
      && (forall d :: d in vectors <==> d in order)
      && Distinct(order)
    }

    constructor()
      ensures Valid() && order == [] && vectors == map[]
    {
      order := [];
      vectors := map[];
    }

    /**
     * `store_vectors`: appends one entry per zipped (chunk, embedding) pair, numbered from 0
     * in input order, after the document's earlier entries; a new document goes last in the
     * key order. It reports `len(chunks)` whatever was appended.
     */
    method StoreVectors(documentId: string, chunks: seq<string>, embeddings: seq<seq<real>>) returns (stored: int)
      requires Valid()
      modifies this
      ensures Valid()
      ensures stored == |chunks|
      ensures order == if documentId in old(vectors) then old(order) else old(order) + [documentId]
      ensures vectors == old(vectors)[documentId :=
                EntriesOf(old(vectors), documentId) + NewEntries(chunks, embeddings, ZipLength(chunks, embeddings))]
    {
      if documentId !in vectors {
        vectors := vectors[documentId := []];
        order := order + [documentId];
      }
      ghost var before := EntriesOf(old(vectors), documentId);
      var n := ZipLength(chunks, embeddings);
      assert NewEntries(chunks, embeddings, 0) == [];
      AppendEmpty(before);
      for idx := 0 to n
        invariant Valid()
        invariant order == if documentId in old(vectors) then old(order) else old(order) + [documentId]
        invariant vectors == old(vectors)[documentId := before + NewEntries(chunks, embeddings, idx)]
      {
        var entry := Entry(idx, chunks[idx], Head5(embeddings[idx]));
        ghost var done := NewEntries(chunks, embeddings, idx);
        NewEntriesSnoc(chunks, embeddings, idx);
        AppendAssoc(before, done, [entry]);
        vectors := vectors[documentId := vectors[documentId] + [entry]];
      }
      return |chunks|;
    }

    /**
     * `search_similar`: the hits of `Search` on the current state. The query embedding is
     * not consulted.
     */
    method SearchSimilar(queryEmbedding: seq<real>, topK: int, documentId: Option<string>) returns (results: seq<Hit>)
      requires Valid()
      ensures results == Search(order, vectors, topK, documentId)
    {
      var hits: seq<Hit> := [];
      for i := 0 to |order|
        invariant hits == AllHits(order[..i], vectors, topK, documentId)
      {
        var docId := order[i];
        AllHitsSnoc(order, i, vectors, topK, documentId);
        if Selected(docId, documentId) {
          hits := AppendHits(hits, docId, Slice(vectors[docId], 0, topK));
        }
      }
      TakeAll(order);
      return Slice(hits, 0, topK);
    }

    /**
     * `delete_by_document_id`: true exactly when the document was stored; its entries go,
     * every other document keeps its entries and its place.
     */
    method DeleteByDocumentId(documentId: string) returns (deleted: bool)
      requires Valid()
      modifies this
      ensures Valid()
      ensures deleted == (documentId in old(vectors))
      ensures vectors == old(vectors) - {documentId}
      ensures order == Remove(old(order), documentId)
    {
      if documentId in vectors {
        vectors := vectors - {documentId};
        order := Remove(order, documentId);
        RemoveDistinct(old(order), documentId);
        return true;
      }
      RemoveAbsent(order, documentId);
      return false;
    }
  }

  /** The loop of `search_similar` over one document's entries: appends their hits in order. */
  method AppendHits(hits: seq<Hit>, docId: string, entries: seq<Entry>) returns (r: seq<Hit>)
    ensures r == hits + HitsOf(docId, entries)
  {
    r := hits;
    for j := 0 to |entries|
      invariant r == hits + HitsOf(docId, entries[..j])
    {
      var entry := entries[j];
      var hit := Hit(entry.text, docId, entry.chunkIndex, MockScore);
      assert HitsOf(docId, entries[..j + 1]) == HitsOf(docId, entries[..j]) + [hit];
      AppendAssoc(hits, HitsOf(docId, entries[..j]), [hit]);
      r := r + [hit];
    }
    TakeAll(entries);
  }

  /** One more document adds its own hits after the earlier ones. */
  lemma AllHitsSnoc(order: seq<string>, i: nat, vectors: map<string, seq<Entry>>, topK: int, filter: Option<string>)
    requires i < |order|
    ensures AllHits(order[..i + 1], vectors, topK, filter)
            == AllHits(order[..i], vectors, topK, filter) + DocHits(vectors, order[i], topK, filter)
  {
    TakeTake(order, i);
  }

  /** Removing an id keeps the others distinct. */
  lemma {:induction false} RemoveDistinct(order: seq<string>, docId: string)
    requires Distinct(order)
    ensures Distinct(Remove(order, docId))
  {
    if order != [] {
      var init := order[..|order| - 1];
      var last := order[|order| - 1];
      assert Distinct(init) by {
        forall i, j | 0 <= i < j < |init| ensures init[i] != init[j] {
          assert init[i] == order[i] && init[j] == order[j];
        }
      }
      assert last !in init by {
        forall k | 0 <= k < |init| ensures init[k] != last {
          assert init[k] == order[k];
        }
      }
      RemoveDistinct(init, docId);
      var ri := Remove(init, docId);
      var r := Remove(order, docId);
      if last != docId {
        assert r == ri + [last];
        forall i, j | 0 <= i < j < |r| ensures r[i] != r[j] {
          assert r[i] == ri[i];
          if j < |ri| {
            assert r[j] == ri[j];
          } else {
            assert r[j] == last && ri[i] in ri;
          }
        }
      } else {
        assert r == ri + [];
      }
    }
  }

  /** Removing an absent id changes nothing. */
  lemma {:induction false} RemoveAbsent(order: seq<string>, docId: string)
    requires docId !in order
    ensures Remove(order, docId) == order
  {
    if order != [] {
      var init := order[..|order| - 1];
      assert docId !in init;
      RemoveAbsent(init, docId);
      TakeLast(order);
    }
  }

  /** With a document filter, the hits of a list of distinct ids are that document's own, or none. */
  lemma {:induction false} AllHitsFiltered(docs: seq<string>, vectors: map<string, seq<Entry>>, topK: int, d: string)
    requires d != [] && Distinct(docs)
    ensures AllHits(docs, vectors, topK, Some(d))
            == if d in docs then HitsOf(d, Slice(EntriesOf(vectors, d), 0, topK)) else []
  {
    if docs != [] {
      var init, last := docs[..|docs| - 1], docs[|docs| - 1];
      assert Distinct(init) by {
        forall i, j | 0 <= i < j < |init| ensures init[i] != init[j] {
          assert init[i] == docs[i] && init[j] == docs[j];
        }
      }
      AllHitsFiltered(init, vectors, topK, d);
      assert d in docs <==> d in init || d == last by {
        TakeLast(docs);
      }
      if last == d {
        assert d !in init by {
          forall k | 0 <= k < |init| ensures init[k] != d {
            assert init[k] == docs[k];
          }
        }
        assert AllHits(docs, vectors, topK, Some(d)) == [] + DocHits(vectors, d, topK, Some(d));
      } else {
        AppendEmpty(AllHits(init, vectors, topK, Some(d)));
      }
    }
  }

  /**
   * A search filtered on a stored document returns that document's first `top_k` entries,
   * in stored order (for a negative `top_k` the two cuts both apply); filtered on any other
   * id it returns nothing.
   */
  lemma SearchFiltered(order: seq<string>, vectors: map<string, seq<Entry>>, topK: int, d: string)
    requires d != [] && Distinct(order)
    ensures var r, es := Search(order, vectors, topK, Some(d)), Slice(EntriesOf(vectors, d), 0, topK);
            && (d !in order ==> r == [])
            && (d in order ==> r == Slice(HitsOf(d, es), 0, topK))
            && (d in order && topK >= 0 ==> r == HitsOf(d, es))
  {
    AllHitsFiltered(order, vectors, topK, d);
    var es := Slice(EntriesOf(vectors, d), 0, topK);
    if topK >= 0 {
      SliceShort(HitsOf(d, es), topK);
    }
  }

  /** After a document is deleted, a search filtered on it returns nothing. */
  lemma SearchAfterDelete(order: seq<string>, vectors: map<string, seq<Entry>>, topK: int, d: string)
    requires d != [] && Distinct(order)
    ensures Search(Remove(order, d), vectors - {d}, topK, Some(d)) == []
  {
    RemoveDistinct(order, d);
    SearchFiltered(Remove(order, d), vectors - {d}, topK, d);
  }

  /**
   * Storing the chunks of a new document, each with an embedding, and then searching for it
   * gives back its first `top_k` chunks, numbered from 0, each scored 0.85.
   */
  lemma StoreThenSearch(order: seq<string>, vectors: map<string, seq<Entry>>, d: string,
                        chunks: seq<string>, embeddings: seq<seq<real>>, topK: int)
    requires d != [] && Distinct(order) && d !in order
    requires |embeddings| >= |chunks| && topK >= 0
    ensures var stored := vectors[d := NewEntries(chunks, embeddings, |chunks|)];
            var r := Search(order + [d], stored, topK, Some(d));
            && |r| == (if topK < |chunks| then topK else |chunks|)
            && forall k :: 0 <= k < |r| ==> r[k] == Hit(chunks[k], d, k, MockScore)
  {
    var stored := vectors[d := NewEntries(chunks, embeddings, |chunks|)];
    assert Distinct(order + [d]) by {
      forall i, j | 0 <= i < j < |order + [d]| ensures (order + [d])[i] != (order + [d])[j] {
        if j < |order| {
          assert (order + [d])[i] == order[i] && (order + [d])[j] == order[j];
        } else {
          assert (order + [d])[i] == order[i] && order[i] in order;
        }
      }
    }
    SearchFiltered(order + [d], stored, topK, d);
    SlicePrefix(NewEntries(chunks, embeddings, |chunks|), topK);
  }

  /** `MockRedisMemory`: a map from session id to its messages, oldest first. */
  class MockRedisMemory {
    var sessions: map<string, seq<Message>>

    constructor()
      ensures sessions == map[]
    {
      sessions := map[];
    }

    /** The session's log, or none. */
    function History(sessionId: string): seq<Message>
      reads this
    {
      if sessionId in sessions then sessions[sessionId] else []
    }

    /** `add_message`: appends one message to the end of the session's log; other sessions are unchanged. */
    method AddMessage(sessionId: string, role: string, content: string)
      modifies this
      ensures sessions == old(sessions)[sessionId := old(History(sessionId)) + [Message(role, content)]]
    {
      if sessionId !in sessions {
        sessions := sessions[sessionId := []];
      }
      sessions := sessions[sessionId := sessions[sessionId] + [Message(role, content)]];
    }

    /**
     * `get_conversation_history`: nothing for an unknown session, otherwise `history[-n:]`
     * for a truthy `n` and the whole log for a falsy one.
     */
    method GetConversationHistory(sessionId: string, maxMessages: Option<int>) returns (messages: seq<Message>)
      ensures sessionId !in sessions ==> messages == []
      ensures messages == Recent(History(sessionId), maxMessages)
    {
      if sessionId !in sessions {
        return [];
      }
      var history := sessions[sessionId];
      if Truthy(maxMessages) {
        return Slice(history, -maxMessages.value, |history|);
      }
      return history;
    }

    /** `clear_session`: true exactly when the session existed; afterwards it does not. */
    method ClearSession(sessionId: string) returns (cleared: bool)
      modifies this
      ensures cleared == (sessionId in old(sessions))
      ensures sessions == old(sessions) - {sessionId}
    {
      if sessionId in sessions {
        sessions := sessions - {sessionId};
        return true;
      }
      return false;
    }

    /** `session_exists`. */
    method SessionExists(sessionId: string) returns (b: bool)
      ensures b == (sessionId in sessions)
    {
      b := sessionId in sessions;
    }

    /** `get_message_count`: the length of the session's log, 0 for an unknown session. */
    method GetMessageCount(sessionId: string) returns (n: int)
      ensures n == |History(sessionId)|
    {
      n := |History(sessionId)|;
    }

    /** `format_history_for_prompt`: as the manager's, over this log. */
    method FormatHistoryForPrompt(sessionId: string, maxMessages: int) returns (s: string)
      ensures s == FormatHistory(Recent(History(sessionId), Some(maxMessages)))
    {
      var history := GetConversationHistory(sessionId, Some(maxMessages));
      s := RenderHistory(history);
    }
  }
}
