/**
 * Conversation memory on its in-memory path (app/utils/redis_memory.py): a dictionary of
 * lists standing in for Redis, and the manager that keeps one append-only message log
 * per session under the key "chat_session:" + id.
 */
module RedisMemory {
  import opened Wrappers
  import opened Text
  import opened Slices
  import opened Messages

  /** `InMemoryStore`: the Redis list commands the manager uses, over a map from key to list. */
  class InMemoryStore<V> {
    var data: map<string, seq<V>>

    constructor()
      ensures data == map[]
    {
      data := map[];
    }

    /** The list under `key`, or the empty list when there is none (`data.get(key, [])`). */
    function Items(key: string): (r: seq<V>)
      reads this
      ensures key !in data ==> r == []
    {
      if key in data then data[key] else []
    }

    /** `rpush`: appends the value to the list under the key, creating the list if needed. */
    method RPush(key: string, value: V)
      modifies this
      ensures data == old(data)[key := old(Items(key)) + [value]]
    {
      data := data[key := Items(key) + [value]];
    }

    /**
     * `lrange`: the elements from `start` to `end` inclusive, either bound counted from the
     * end when negative; an `end` of -1 reaches the last element.
     */
    method LRange(key: string, start: int, end: int) returns (items: seq<V>)
      ensures end == -1 ==> items == Slice(Items(key), start, |Items(key)|)
      ensures end != -1 ==> items == Slice(Items(key), start, end + 1)
    {
      var all := Items(key);
      if end == -1 {
        return Slice(all, start, |all|);
      }
      return Slice(all, start, end + 1);
    }

    /** `delete`: removes the key; 1 when it was present, 0 otherwise. */
    method Delete(key: string) returns (n: int)
      modifies this
      ensures n == if key in old(data) then 1 else 0
      ensures data == old(data) - {key}
    {
      if key in data {
        data := data - {key};
        return 1;
      }
      return 0;
    }

    /** `exists`: 1 when the key is present, 0 otherwise. */
    method Exists(key: string) returns (n: int)
      ensures n == 1 <==> key in data
      ensures n == 0 <==> key !in data
    {
      n := if key in data then 1 else 0;
    }

    /** `llen`: the length of the list under the key, 0 when there is none. */
    method LLen(key: string) returns (n: int)
      ensures n == |Items(key)|
      ensures key !in data ==> n == 0
    {
      n := |Items(key)|;
    }
  }

  /** The prefix of every session key. */
  const KeyPrefix: string := "chat_session:"

  /** `_get_session_key`: the prefix followed by the session id. */
  function SessionKey(sessionId: string): (k: string)
    ensures StartsWith(k, KeyPrefix) && k[|KeyPrefix|..] == sessionId
  {
    KeyPrefix + sessionId
  }

  /** Distinct sessions are stored under distinct keys. */
  lemma SessionKeyInjective(a: string, b: string)
    ensures SessionKey(a) == SessionKey(b) <==> a == b
  {
    if SessionKey(a) == SessionKey(b) {
      calc {
        a;
        SessionKey(a)[|KeyPrefix|..];
        SessionKey(b)[|KeyPrefix|..];
        b;
      }
    }
  }

  /**
   * `RedisMemoryManager` with the in-memory client: each session's history is the list of
   * messages under its key, in the order they were added.
   */
  class RedisMemoryManager {
    const client: InMemoryStore<Message>

    constructor()
      ensures fresh(client) && client.data == map[]
    {
      client := new InMemoryStore();
    }

    /** The session's log, oldest first. */
    function History(sessionId: string): seq<Message>
      reads client
    {
      client.Items(SessionKey(sessionId))
    }

    /** Whether the session has a log. */
    predicate Known(sessionId: string)
      reads client
    {
      SessionKey(sessionId) in client.data
    }

    /**
     * `add_message`: appends exactly one message, with that role and content, to the end of
     * the session's log; every other session's log is unchanged.
     */
    method AddMessage(sessionId: string, role: string, content: string)
      modifies client
      ensures History(sessionId) == old(History(sessionId)) + [Message(role, content)]
      ensures Known(sessionId)
      ensures forall other :: other != sessionId ==>
                History(other) == old(History(other)) && (Known(other) <==> old(Known(other)))
    {
      client.RPush(SessionKey(sessionId), Message(role, content));
      forall other | other != sessionId
        ensures History(other) == old(History(other)) && (Known(other) <==> old(Known(other)))
      {
        SessionKeyInjective(other, sessionId);
      }
    }

    /**
     * `get_conversation_history`: the last `maxMessages` messages in chronological order
     * when `maxMessages` is truthy, the whole log otherwise.
     */
    method GetConversationHistory(sessionId: string, maxMessages: Option<int>) returns (messages: seq<Message>)
      ensures messages == Recent(History(sessionId), maxMessages)
    {
      var key := SessionKey(sessionId);
      if Truthy(maxMessages) {
        messages := client.LRange(key, -maxMessages.value, -1);
      } else {
        messages := client.LRange(key, 0, -1);
        SliceAll(History(sessionId));
      }
    }

    /**
     * `clear_session`: true exactly when the session had a log; afterwards it has none and
     * every other session's log is unchanged.
     */
    method ClearSession(sessionId: string) returns (cleared: bool)
      modifies client
      ensures cleared == old(Known(sessionId))
      ensures !Known(sessionId) && History(sessionId) == []
      ensures forall other :: other != sessionId ==>
                History(other) == old(History(other)) && (Known(other) <==> old(Known(other)))
    {
      var n := client.Delete(SessionKey(sessionId));
      cleared := n > 0;
      forall other | other != sessionId
        ensures History(other) == old(History(other)) && (Known(other) <==> old(Known(other)))
      {
        SessionKeyInjective(other, sessionId);
      }
    }

    /** `session_exists`. */
    method SessionExists(sessionId: string) returns (b: bool)
      ensures b == Known(sessionId)
    {
      var n := client.Exists(SessionKey(sessionId));
      b := n > 0;
    }

    /** `get_message_count`: the length of the session's log, 0 for an unknown session. */
    method GetMessageCount(sessionId: string) returns (n: int)
      ensures n == |History(sessionId)|
      ensures !Known(sessionId) ==> n == 0
    {
      n := client.LLen(SessionKey(sessionId));
    }

    /**
     * `format_history_for_prompt`: the recent window of the log, one "Role: content" line
     * per message joined by newlines, "" for an empty window.
     */
    method FormatHistoryForPrompt(sessionId: string, maxMessages: int) returns (s: string)
      ensures s == FormatHistory(Recent(History(sessionId), Some(maxMessages)))
    {
      var history := GetConversationHistory(sessionId, Some(maxMessages));
      s := RenderHistory(history);
    }
  }
}
