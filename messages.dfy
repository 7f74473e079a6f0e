/**
 * Conversation messages as both session stores keep them, the "last N" window over a
 * session's log, and the prompt rendering of a history (app/utils/redis_memory.py and
 * app/utils/mock_services.py share these).
 */
module Messages {
  import opened Wrappers
  import opened Text
  import opened Slices

  /** One `{"role": ..., "content": ...}` entry of a session log. */
  datatype Message = Message(role: string, content: string)

  /**
   * `history[-n:]` when `n` is truthy, the whole history otherwise: the slice both
   * `get_conversation_history` implementations take.
   */
  function Recent<T>(history: seq<T>, maxMessages: Option<int>): (r: seq<T>)
    ensures !Truthy(maxMessages) ==> r == history
    ensures Truthy(maxMessages) && maxMessages.value > 0 ==>
              var n := maxMessages.value; var m := if n < |history| then n else |history|;
              r == history[|history| - m..]
    ensures Truthy(maxMessages) && maxMessages.value < 0 ==>
              var n := -maxMessages.value;
              r == if n < |history| then history[n..] else []
  {
    if Truthy(maxMessages) then
      var n := maxMessages.value;
      SliceLastAny(history, n);
      Slice(history, -n, |history|)
    else history
  }

  /** An empty log has no recent messages, whatever the window. */
  lemma RecentOfEmpty<T>(maxMessages: Option<int>)
    ensures Recent<T>([], maxMessages) == []
  {
  }

  /** `f"{role.capitalize()}: {content}"`. */
  function Line(m: Message): (r: string)
    ensures |r| == |m.role| + 2 + |m.content|
    ensures r[..|m.role|] == Capitalize(m.role)
    ensures r[|m.role|..|m.role| + 2] == ": " && r[|m.role| + 2..] == m.content
  {
    Capitalize(m.role) + ": " + m.content
  }

  /** The rendered line of every message, in order. */
  function Lines(ms: seq<Message>): (r: seq<string>)
    ensures |r| == |ms|
    ensures forall k :: 0 <= k < |ms| ==> r[k] == Line(ms[k])
  {
    seq(|ms|, k requires 0 <= k < |ms| => Line(ms[k]))
  }

  /** `format_history_for_prompt` after the history is read: "" or the lines joined by newlines. */
  function FormatHistory(ms: seq<Message>): (r: string)
    ensures r == [] <==> ms == []
  {
    if ms == [] then [] else Join(Lines(ms), "\n")
  }

  /**
   * The rendering loop of `format_history_for_prompt` (both session stores have it): "" for
   * no messages, otherwise one line per message joined by newlines.
   */
  method RenderHistory(history: seq<Message>) returns (s: string)
    ensures s == FormatHistory(history)
  {
    if history == [] {
      return "";
    }
    var formatted: seq<string> := [];
    for i := 0 to |history|
      invariant formatted == Lines(history[..i])
    {
      LinesTake(history, i);
      formatted := formatted + [Line(history[i])];
    }
    TakeAll(history);
    s := Join(formatted, "\n");
  }

  /** One more message of the history renders one more line. */
  lemma LinesTake(ms: seq<Message>, i: nat)
    requires i < |ms|
    ensures Lines(ms[..i + 1]) == Lines(ms[..i]) + [Line(ms[i])]
  {
    assert ms[..i + 1] == ms[..i] + [ms[i]];
  }

  /** A message whose role and content have no newline renders as one line. */
  predicate OneLine(m: Message) {
    '\n' !in m.role && '\n' !in m.content
  }

  /** Capitalising only changes letters, so it adds no newline. */
  lemma CapitalizeNoNewline(s: string)
    requires '\n' !in s
    ensures '\n' !in Capitalize(s)
  {
    var c := Capitalize(s);
    forall k | 0 <= k < |c| ensures c[k] != '\n' {
      if k > 0 {
        assert c[k] == LowerChar(s[k]);
      }
    }
  }

  /** Splitting a rendered history at newlines gives back one line per message. */
  lemma FormatHistoryLines(ms: seq<Message>)
    requires ms != []
    requires forall k :: 0 <= k < |ms| ==> OneLine(ms[k])
    ensures Split(FormatHistory(ms), '\n') == Lines(ms)
  {
    var ls := Lines(ms);
    forall k | 0 <= k < |ls| ensures '\n' !in ls[k] {
      CapitalizeNoNewline(ms[k].role);
      assert ls[k] == Capitalize(ms[k].role) + ": " + ms[k].content;
    }
    SplitJoin(ls, '\n');
  }

  /** Rendering one more message adds a newline and its line. */
  lemma FormatHistorySnoc(ms: seq<Message>, m: Message)
    ensures FormatHistory(ms + [m]) == if ms == [] then Line(m) else FormatHistory(ms) + "\n" + Line(m)
  {
    assert Lines(ms + [m]) == Lines(ms) + [Line(m)];
    JoinSnocAny(Lines(ms), Line(m), "\n");
  }
}
