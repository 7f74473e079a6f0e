/**
 * The fixed lines of the prompt template in app/services/rag_service.py, and the two line
 * prefixes its response scanner looks for.
 *
 * The longer lines are written as concatenations of short literals.
 */
module PromptTemplate {
  import opened Text

  const ContextMarker: string := "[Context"
  const QuestionMarker: string := "Current Question:"

  const Opening: string := Opening1 + Opening2 + Opening3 + Opening4 + Opening5
  const Opening1: string := "You are a helpful AI "
  const Opening2: string := "assistant. Use the "
  const Opening3: string := "following context and "
  const Opening4: string := "conversation history to "
  const Opening5: string := "answer the user's question."
  const Sources: string := "Context from documents:"
  const HistoryTitle: string := "Conversation History:"
  const Instructions: string := "Instructions:"
  const Rule1: string := "- Answer based on " + "the provided context"
  const Rule2: string := Rule2a + Rule2b
  const Rule2a: string := "- If the context doesn't contain "
  const Rule2b: string := "relevant information, say so"
  const Rule3: string := "- Be conversational " + "and helpful"
  const Rule4: string := "- Reference the " + "context when applicable"
  const Rule5: string := "- Keep track of the " + "conversation flow"
  const AnswerCue: string := "Answer:"

  /** The template's lines before the context section. */
  const Head: seq<string> := [Opening, "", Sources]

  /** The template's lines between the context and the history sections. */
  const Middle: seq<string> := ["", HistoryTitle]

  /** The template's lines after the current question. */
  const Closing: seq<string> := ["", Instructions, Rule1, Rule2, Rule3, Rule4, Rule5, "", AnswerCue]

  /** A line that starts with neither marker and is not blank. */
  predicate Plain(line: string) {
    !StartsWith(line, ContextMarker) && !StartsWith(line, QuestionMarker) && Strip(line) != []
  }

  /** A fixed line: no newline in it, and not a context line. */
  predicate Fixed(s: string) {
    '\n' !in s && (s == [] || s[0] != '[')
  }

  /** A fixed line does not start with "[Context". */
  lemma FixedNotContext(s: string)
    requires Fixed(s)
    ensures !StartsWith(s, ContextMarker)
  {
    if |s| >= |ContextMarker| {
      assert s[..|ContextMarker|][0] == s[0];
    }
  }

  lemma Opening1Fixed() ensures Fixed(Opening1) { }
  lemma Opening2Fixed() ensures '\n' !in Opening2 { }
  lemma Opening3Fixed() ensures '\n' !in Opening3 { }
  lemma Opening4Fixed() ensures '\n' !in Opening4 { }
  lemma Opening5Fixed() ensures '\n' !in Opening5 { }

  lemma OpeningFixed()
    ensures Fixed(Opening)
  {
    Opening1Fixed();
    Opening2Fixed();
    Opening3Fixed();
    Opening4Fixed();
    Opening5Fixed();
  }

  lemma Rule1Fixed() ensures Fixed(Rule1) { }
  lemma Rule2aFixed() ensures Fixed(Rule2a) { }
  lemma Rule2bFixed() ensures '\n' !in Rule2b { }

  lemma Rule2Fixed()
    ensures Fixed(Rule2)
  {
    Rule2aFixed();
    Rule2bFixed();
  }
  lemma Rule3Fixed() ensures Fixed(Rule3) { }
  lemma Rule4Fixed() ensures Fixed(Rule4) { }
  lemma Rule5Fixed() ensures Fixed(Rule5) { }

  lemma HeadFixed()
    ensures forall k :: 0 <= k < |Head| ==> Fixed(Head[k])
  {
    OpeningFixed();
  }

  /** The history title is a fixed line that the scanner collects as it stands. */
  lemma MiddleFixed()
    ensures forall k :: 0 <= k < |Middle| ==> Fixed(Middle[k])
    ensures Trimmed(HistoryTitle) && !StartsWith(HistoryTitle, QuestionMarker)
  {
    assert HistoryTitle[..|QuestionMarker|][1] == 'o';
  }

  /** The history title is collected as it stands. */
  lemma TitlePlain()
    ensures Plain(HistoryTitle) && Strip(HistoryTitle) == HistoryTitle
  {
    MiddleFixed();
    FixedNotContext(HistoryTitle);
    StripTrimmed(HistoryTitle);
    assert HistoryTitle[0] == 'C';
  }

  lemma ClosingFixed()
    ensures forall k :: 0 <= k < |Closing| ==> Fixed(Closing[k])
  {
    Rule1Fixed();
    Rule2Fixed();
    Rule3Fixed();
    Rule4Fixed();
    Rule5Fixed();
  }
}
