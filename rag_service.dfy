/**
 * The retrieval-augmented chat turn (app/services/rag_service.py): the prompt built from
 * the retrieved hits and the recent history, the line scanner that turns a prompt into an
 * answer, and the order of effects of one chat call on the session log.
 */
module RagService {
  import opened Wrappers
  import opened Text
  import opened Slices
  import Config
  import opened Messages
  import opened RedisMemory
  import opened MockServices
  import opened PromptTemplate

  // ---------------------------------------------------------------------------
  // The prompt
  // ---------------------------------------------------------------------------

  /** `f"[Context {idx}]: {text}"`. */
  function ContextBlock(idx: nat, text: string): (r: string)
    ensures StartsWith(r, ContextMarker)
    ensures |r| >= |text| && r[|r| - |text|..] == text
  {
    "[Context " + NatToString(idx) + "]: " + text
  }

  /** The numbered blocks of the hits, numbered from 1 in hit order. */
  function ContextBlocks(hits: seq<Hit>): (r: seq<string>)
    ensures |r| == |hits|
    ensures forall k :: 0 <= k < |hits| ==> r[k] == ContextBlock(k + 1, hits[k].text)
  {
    seq(|hits|, k requires 0 <= k < |hits| => ContextBlock(k + 1, hits[k].text))
  }

  /** The blocks separated by blank lines, before any cut. */
  function RawContext(hits: seq<Hit>): (r: string)
    ensures hits == [] <==> r == []
  {
    Join(ContextBlocks(hits), "\n\n")
  }

  /**
   * The context section: the raw context when it fits in `max_context_length`, otherwise
   * its first `max_context_length` characters followed by "...".
   */
  function ContextString(hits: seq<Hit>): (r: string)
    ensures |RawContext(hits)| <= Config.MaxContextLength ==> r == RawContext(hits)
    ensures |RawContext(hits)| > Config.MaxContextLength ==>
              |r| == Config.MaxContextLength + 3
              && r[..Config.MaxContextLength] == RawContext(hits)[..Config.MaxContextLength]
              && r[Config.MaxContextLength..] == "..."
    ensures |r| <= Config.MaxContextLength + 3
  {
    var raw := RawContext(hits);
    if |raw| > Config.MaxContextLength then raw[..Config.MaxContextLength] + "..." else raw
  }

  /** The history before the current message: all but the last entry, none when there are at most one. */
  function Earlier(history: seq<Message>): (r: seq<Message>)
    ensures |history| > 1 ==> r == history[..|history| - 1]
    ensures |history| <= 1 ==> r == []
  {
    if |history| > 1 then history[..|history| - 1] else []
  }

  /** The history section: one "Role: content" line per message but the last, "" for at most one message. */
  function HistorySection(history: seq<Message>): (r: string)
    ensures r == FormatHistory(Earlier(history))
  {
    if |history| > 1 then Join(Lines(history[..|history| - 1]), "\n") else ""
  }

  /** The line carrying the current question. */
  function QuestionLine(userMessage: string): (r: string)
    ensures StartsWith(r, QuestionMarker)
    ensures r[|QuestionMarker|..] == " " + userMessage
  {
    QuestionMarker + " " + userMessage
  }

  /** The lines of the prompt template, with the three sections and the question filled in. */
  function PromptLines(context: string, history: string, userMessage: string): seq<string> {
    Head + [context] + Middle + [history] + ["", QuestionLine(userMessage)] + Closing
  }

  /**
   * `_build_prompt`: the template's lines joined by newlines. Split back into lines, a
   * prompt over a one-line question is the template's fixed lines with the context and
   * history sections' own lines in their places.
   */
  function BuildPrompt(userMessage: string, hits: seq<Hit>, history: seq<Message>): (r: string)
    ensures '\n' !in userMessage ==>
              Split(r, '\n') == Head + Split(ContextString(hits), '\n') + Middle
                                + Split(HistorySection(history), '\n') + (["", QuestionLine(userMessage)] + Closing)
  {
    var prompt := Join(PromptLines(ContextString(hits), HistorySection(history), userMessage), "\n");
    if '\n' in userMessage then prompt
    else PromptSplit(ContextString(hits), HistorySection(history), userMessage); prompt
  }

  // ---------------------------------------------------------------------------
  // The response
  // ---------------------------------------------------------------------------

  /** The scanner's state: whether a context block has been seen, and the lines collected. */
  datatype ScanState = ScanState(started: bool, parts: seq<string>)


  /**
   * One pass of the line loop: a line starting with "[Context" opens collection (and is not
   * itself collected), the question line closes it, and while it is open every non-blank
   * line is collected stripped.
   */
  function ScanLine(st: ScanState, line: string): (r: ScanState)
    ensures StartsWith(line, ContextMarker) ==> r.started
    ensures !StartsWith(line, ContextMarker) && StartsWith(line, QuestionMarker) ==> !r.started
    ensures !StartsWith(line, ContextMarker) && !StartsWith(line, QuestionMarker) ==> r.started == st.started
    ensures st.started && Plain(line) ==> r.parts == st.parts + [Strip(line)]
    ensures !(st.started && Plain(line)) ==> r.parts == st.parts
  {
    if StartsWith(line, ContextMarker) then ScanState(true, st.parts)
    else if StartsWith(line, QuestionMarker) then ScanState(false, st.parts)
    else if st.started && Strip(line) != [] then ScanState(true, st.parts + [Strip(line)])
    else st
  }

  /** The line loop over `lines`, in order, from `st`. */
  function ScanFrom(st: ScanState, lines: seq<string>): (r: ScanState)
    ensures |st.parts| <= |r.parts| <= |st.parts| + |lines|
    ensures r.parts[..|st.parts|] == st.parts
    decreases |lines|
  {
    if lines == [] then st else ScanFrom(ScanLine(st, lines[0]), lines[1..])
  }

  const Intro: string := "Based on the documents, here's what I found:\n\n"
  const More: string := "...\n\n(There's more information available in the documents)"
  const NotFound: string :=
    "I couldn't find relevant information in the uploaded documents to answer your question. "
    + "Please make sure you've uploaded documents related to your query, or try rephrasing your question."

  /** The longest part of the collected text an answer quotes. */
  const QuoteLength: int := 1000

  /**
   * The answer for the collected lines: the fixed apology when there are none, otherwise the
   * introduction, at most the first 1000 characters of the lines joined by spaces, and the
   * note about more information exactly when the joined text is longer.
   */
  function Respond(parts: seq<string>): (r: string)
    ensures parts == [] ==> r == NotFound
    ensures parts != [] ==>
              var full := Join(parts, " ");
              var quoted := if |full| > QuoteLength then full[..QuoteLength] else full;
              r == Intro + quoted + (if |full| > QuoteLength then More else [])
  {
    if parts != [] then
      var full := Join(parts, " ");
      SlicePrefix(full, QuoteLength);
      Intro + Slice(full, 0, QuoteLength) + (if |full| > QuoteLength then More else [])
    else NotFound
  }

  /** `_generate_response`: scan the prompt's lines, then answer from what was collected. */
  function GenerateResponse(prompt: string): (r: string)
    ensures r == NotFound || (StartsWith(r, Intro) && |r| <= |Intro| + QuoteLength + |More|)
  {
    Respond(ScanFrom(ScanState(false, []), Split(prompt, '\n')).parts)
  }

  // ---------------------------------------------------------------------------
  // The scanner, piece by piece
  // ---------------------------------------------------------------------------

  /** Scanning two runs of lines is scanning the first and then the second. */
  lemma {:induction false} ScanAppend(st: ScanState, a: seq<string>, b: seq<string>)
    ensures ScanFrom(st, a + b) == ScanFrom(ScanFrom(st, a), b)
    decreases |a|
  {
    if a == [] {
      assert a + b == b;
    } else {
      DropAppend(a, b);
      assert (a + b)[0] == a[0];
      ScanAppend(ScanLine(st, a[0]), a[1..], b);
    }
  }

  /** A "[Context" line opens collection whatever came before. */
  lemma ScanOpens(st: ScanState, line: string)
    requires StartsWith(line, ContextMarker)
    ensures ScanLine(st, line) == ScanState(true, st.parts)
  {
  }

  /** An empty line changes nothing. */
  lemma ScanBlank(st: ScanState)
    ensures ScanLine(st, []) == st
  {
  }

  /** One turn of the line loop. */
  lemma ScanStep(st: ScanState, lines: seq<string>)
    requires lines != []
    ensures ScanFrom(st, lines) == ScanFrom(ScanLine(st, lines[0]), lines[1..])
  {
  }

  /** Before any context line, lines that do not start with "[Context" change nothing. */
  lemma {:induction false} ScanIdle(st: ScanState, lines: seq<string>)
    requires !st.started
    requires forall k :: 0 <= k < |lines| ==> !StartsWith(lines[k], ContextMarker)
    ensures ScanFrom(st, lines) == st
    decreases |lines|
  {
    if lines != [] {
      assert ScanLine(st, lines[0]) == st;
      ScanIdle(st, lines[1..]);
    }
  }

  /** Every line stripped, in order. */
  function StripAll(lines: seq<string>): (r: seq<string>)
    ensures |r| == |lines|
    ensures forall k :: 0 <= k < |lines| ==> r[k] == Strip(lines[k])
  {
    seq(|lines|, k requires 0 <= k < |lines| => Strip(lines[k]))
  }

  /** While collecting, a plain line is collected stripped. */
  lemma CollectLine(st: ScanState, line: string)
    requires st.started && Plain(line)
    ensures ScanLine(st, line) == ScanState(true, st.parts + [Strip(line)])
  {
  }

  lemma StripAllCons(lines: seq<string>)
    requires lines != []
    ensures StripAll(lines) == [Strip(lines[0])] + StripAll(lines[1..])
  {
  }

  /** While collecting, plain lines are collected stripped, one for one. */
  lemma {:induction false} ScanCollect(st: ScanState, lines: seq<string>)
    requires st.started
    requires forall k :: 0 <= k < |lines| ==> Plain(lines[k])
    ensures ScanFrom(st, lines) == ScanState(true, st.parts + StripAll(lines))
    decreases |lines|
  {
    if lines == [] {
      AppendEmpty(st.parts);
    } else {
      var x := Strip(lines[0]);
      CollectLine(st, lines[0]);
      ScanCollect(ScanState(true, st.parts + [x]), lines[1..]);
      StripAllCons(lines);
      AppendAssoc(st.parts, [x], StripAll(lines[1..]));
    }
  }

  /** The lines of blocks joined by blank lines: each block, with an empty line between two. */
  function Spread(bs: seq<string>): (r: seq<string>)
    ensures bs != [] ==> r != [] && r[0] == bs[0]
  {
    if |bs| <= 1 then bs else [bs[0], []] + Spread(bs[1..])
  }

  /** Spreading single-line blocks gives single lines: the blocks and the empty lines between. */
  lemma {:induction false} SpreadLines(bs: seq<string>)
    requires forall k :: 0 <= k < |bs| ==> '\n' !in bs[k]
    ensures forall k :: 0 <= k < |Spread(bs)| ==> '\n' !in Spread(bs)[k]
  {
    if |bs| > 1 {
      SpreadLines(bs[1..]);
      var rest := Spread(bs[1..]);
      assert Spread(bs) == [bs[0], []] + rest;
      forall k | 2 <= k < |Spread(bs)| ensures Spread(bs)[k] == rest[k - 2] {
      }
    }
  }

  /** Joining by a blank line is joining the spread-out blocks by one newline. */
  lemma {:induction false} JoinSpread(bs: seq<string>)
    ensures Join(bs, "\n\n") == Join(Spread(bs), "\n")
    decreases |bs|
  {
    if |bs| > 1 {
      var rest := Spread(bs[1..]);
      JoinSpread(bs[1..]);
      var s := Spread(bs);
      assert s == [bs[0], []] + rest;
      assert s[1..] == [[]] + rest;
      assert ([[]] + rest)[1..] == rest;
      var j := Join(rest, "\n");
      calc {
        Join(s, "\n");
        bs[0] + "\n" + Join([[]] + rest, "\n");
        bs[0] + "\n" + ([] + "\n" + j);
        { assert [] + "\n" + j == "\n" + j; AppendAssoc(bs[0], "\n", "\n" + j); AppendAssoc(bs[0] + "\n", "\n", j); }
        bs[0] + "\n\n" + j;
        Join(bs, "\n\n");
      }
    }
  }

  /** An empty line after a context line is skipped. */
  lemma ScanGap(st: ScanState, rest: seq<string>)
    ensures ScanFrom(st, [[]] + rest) == ScanFrom(st, rest)
  {
    ScanBlank(st);
    ScanStep(st, [[]] + rest);
    assert ([[]] + rest)[1..] == rest;
  }

  /** Every block starts with "[Context". */
  predicate AllContext(bs: seq<string>) {
    forall k :: 0 <= k < |bs| ==> StartsWith(bs[k], ContextMarker)
  }

  /** From any state, a run of context blocks opens collection and collects nothing. */
  lemma {:induction false} ScanContext(st: ScanState, bs: seq<string>)
    requires bs != []
    requires AllContext(bs)
    ensures ScanFrom(st, Spread(bs)) == ScanState(true, st.parts)
    decreases |bs|
  {
    var open := ScanState(true, st.parts);
    var s := Spread(bs);
    assert StartsWith(bs[0], ContextMarker);
    ScanOpens(st, bs[0]);
    ScanStep(st, s);
    if |bs| == 1 {
      assert s[1..] == [];
    } else {
      var rest := Spread(bs[1..]);
      assert s[1..] == [[]] + rest;
      ScanGap(open, rest);
      assert AllContext(bs[1..]) by {
        forall k | 0 <= k < |bs| - 1 ensures StartsWith(bs[1..][k], ContextMarker) {
          assert bs[1..][k] == bs[k + 1];
        }
      }
      ScanContext(open, bs[1..]);
    }
  }

  /** A context block is one line starting with "[Context" when its text has no newline. */
  lemma ContextBlockLine(idx: nat, text: string)
    requires '\n' !in text
    ensures StartsWith(ContextBlock(idx, text), ContextMarker)
    ensures '\n' !in ContextBlock(idx, text)
  {
    var b := ContextBlock(idx, text);
    var n := NatToString(idx);
    assert b == "[Context " + n + "]: " + text;
    assert b[..8] == ContextMarker;
    forall k | 0 <= k < |b| ensures b[k] != '\n' {
      if 9 <= k < 9 + |n| {
        assert b[k] == n[k - 9];
      } else if 9 + |n| + 3 <= k {
        assert b[k] == text[k - 9 - |n| - 3];
      }
    }
  }

  /** When nothing is cut, the context section splits into its blocks with blank lines between. */
  lemma ContextLines(hits: seq<Hit>)
    requires hits != []
    requires forall k :: 0 <= k < |hits| ==> '\n' !in hits[k].text
    requires |RawContext(hits)| <= Config.MaxContextLength
    ensures var bs := ContextBlocks(hits);
            Split(ContextString(hits), '\n') == Spread(bs)
            && forall k :: 0 <= k < |bs| ==> StartsWith(bs[k], ContextMarker)
  {
    var bs := ContextBlocks(hits);
    forall k | 0 <= k < |bs|
      ensures StartsWith(bs[k], ContextMarker) && '\n' !in bs[k]
    {
      ContextBlockLine(k + 1, hits[k].text);
    }
    JoinSpread(bs);
    SpreadLines(bs);
    SplitJoin(Spread(bs), '\n');
  }

  // Past its first letter a capitalised role is lower case, so the upper-case 'C' of
  // "[Context" and the upper-case 'Q' of "Current Question:" can only meet the ": " after
  // the role or the content, where the ':' does not fit either.

  lemma LineNotContext(m: Message)
    ensures !StartsWith(Line(m), ContextMarker)
  {
    var l := Line(m);
    var n := |m.role|;
    assert l[n] == ':';
    if |l| >= |ContextMarker| {
      var p := l[..|ContextMarker|];
      if n == 0 {
        assert p[0] == ':';
      } else if n == 1 {
        assert p[1] == ':';
      } else {
        assert p[1] == Capitalize(m.role)[1] == LowerChar(m.role[1]);
      }
    }
  }

  lemma LineNotQuestion(m: Message)
    ensures !StartsWith(Line(m), QuestionMarker)
  {
    var l := Line(m);
    var n := |m.role|;
    assert l[n] == ':';
    if |l| >= |QuestionMarker| {
      var p := l[..|QuestionMarker|];
      if n < 9 {
        assert p[n] == ':' && QuestionMarker[n] != ':';
      } else {
        assert p[8] == Capitalize(m.role)[8] == LowerChar(m.role[8]);
      }
    }
  }

  /** No line of the rendered history starts with either marker, and none is blank. */
  lemma LinePlain(m: Message)
    ensures Plain(Line(m))
  {
    LineNotContext(m);
    LineNotQuestion(m);
    assert !IsSpace(Line(m)[|m.role|]);
  }

  /** While collecting, the history section adds the stripped line of every earlier message. */
  lemma HistoryCollected(parts: seq<string>, history: seq<Message>)
    requires forall k :: 0 <= k < |history| ==> OneLine(history[k])
    ensures ScanFrom(ScanState(true, parts), Split(HistorySection(history), '\n'))
            == ScanState(true, parts + StripAll(Lines(Earlier(history))))
  {
    var e := Earlier(history);
    if e == [] {
      SplitNoSeparator([], '\n');
      assert ScanLine(ScanState(true, parts), []) == ScanState(true, parts);
      assert StripAll(Lines(e)) == [];
      AppendEmpty(parts);
    } else {
      FormatHistoryLines(e);
      var ls := Lines(e);
      forall k | 0 <= k < |ls| ensures Plain(ls[k]) {
        LinePlain(e[k]);
      }
      ScanCollect(ScanState(true, parts), ls);
    }
  }

  /** Before collection opens, the history section changes nothing. */
  lemma HistoryIdle(st: ScanState, history: seq<Message>)
    requires !st.started
    requires forall k :: 0 <= k < |history| ==> OneLine(history[k])
    ensures ScanFrom(st, Split(HistorySection(history), '\n')) == st
  {
    var e := Earlier(history);
    if e == [] {
      SplitNoSeparator([], '\n');
      ScanIdle(st, [[]]);
    } else {
      FormatHistoryLines(e);
      var ls := Lines(e);
      forall k | 0 <= k < |ls| ensures !StartsWith(ls[k], ContextMarker) {
        LinePlain(e[k]);
      }
      ScanIdle(st, ls);
    }
  }

  // ---------------------------------------------------------------------------
  // The prompt's lines
  // ---------------------------------------------------------------------------

  /** Splitting two newline-joined runs joined by a newline splits each run. */
  lemma SplitJoinAppend(a: seq<string>, b: seq<string>)
    requires a != [] && b != []
    ensures Split(Join(a + b, "\n"), '\n') == Split(Join(a, "\n"), '\n') + Split(Join(b, "\n"), '\n')
  {
    JoinAppend(a, b, "\n");
    SplitConcat(Join(a, "\n"), Join(b, "\n"), '\n');
  }

  /** Lines with no newline in any of them. */
  predicate Single(xs: seq<string>) {
    forall k :: 0 <= k < |xs| ==> '\n' !in xs[k]
  }

  /** Splitting newline-joined single lines gives them back. */
  lemma SplitSingle(xs: seq<string>)
    requires xs != [] && Single(xs)
    ensures Split(Join(xs, "\n"), '\n') == xs
  {
    SplitJoin(xs, '\n');
  }

  /** Joining one more piece by a newline adds the piece's own lines. */
  lemma SplitJoinSnoc(a: seq<string>, x: string)
    requires a != []
    ensures Split(Join(a + [x], "\n"), '\n') == Split(Join(a, "\n"), '\n') + Split(x, '\n')
  {
    SplitJoinAppend(a, [x]);
  }

  /** Splitting fixed runs of lines around two free sections. */
  lemma SplitAround(h: seq<string>, c: string, m: seq<string>, s: string, t: seq<string>)
    requires h != [] && m != [] && t != []
    requires Single(h) && Single(m) && Single(t)
    ensures Split(Join(h + [c] + m + [s] + t, "\n"), '\n')
            == h + Split(c, '\n') + m + Split(s, '\n') + t
  {
    var x1 := h + [c];
    var x2 := x1 + m;
    var x3 := x2 + [s];
    SplitJoinAppend(x3, t);
    SplitSingle(t);
    SplitJoinSnoc(x2, s);
    SplitJoinAppend(x1, m);
    SplitSingle(m);
    SplitJoinSnoc(h, c);
    SplitSingle(h);
  }

  /** The fixed lines of the template, and the question line, have no newline. */
  lemma TemplateSingle(userMessage: string)
    requires '\n' !in userMessage
    ensures Single(Head) && Single(Middle) && Single(["", QuestionLine(userMessage)] + Closing)
  {
    HeadFixed();
    MiddleFixed();
    ClosingFixed();
    var t := ["", QuestionLine(userMessage)] + Closing;
    forall k | 0 <= k < |t| ensures '\n' !in t[k] {
      if k >= 2 {
        assert t[k] == Closing[k - 2];
      }
    }
  }

  /** The prompt's lines: the template's lines with the two sections split in place. */
  lemma PromptSplit(context: string, history: string, userMessage: string)
    requires '\n' !in userMessage
    ensures Split(Join(PromptLines(context, history, userMessage), "\n"), '\n')
            == Head + Split(context, '\n') + Middle + Split(history, '\n') + (["", QuestionLine(userMessage)] + Closing)
  {
    var t := ["", QuestionLine(userMessage)] + Closing;
    TemplateSingle(userMessage);
    assert PromptLines(context, history, userMessage) == Head + [context] + Middle + [history] + t;
    SplitAround(Head, context, Middle, history, t);
  }

  // ---------------------------------------------------------------------------
  // What the answer is
  // ---------------------------------------------------------------------------

  /** A prompt with no line starting with "[Context" gets the apology. */
  lemma NoContextNotFound(prompt: string)
    requires forall k :: 0 <= k < |Split(prompt, '\n')| ==> !StartsWith(Split(prompt, '\n')[k], ContextMarker)
    ensures GenerateResponse(prompt) == NotFound
  {
    ScanIdle(ScanState(false, []), Split(prompt, '\n'));
  }

  /** Scanning five runs of lines one after another. */
  lemma ScanFive(st: ScanState, a: seq<string>, b: seq<string>, c: seq<string>, d: seq<string>, t: seq<string>)
    ensures ScanFrom(st, a + b + c + d + t)
            == ScanFrom(ScanFrom(ScanFrom(ScanFrom(ScanFrom(st, a), b), c), d), t)
  {
    ScanAppend(st, a + b + c + d, t);
    ScanAppend(st, a + b + c, d);
    ScanAppend(st, a + b, c);
    ScanAppend(st, a, b);
  }

  /** Before collection opens, the blank line and the history title change nothing. */
  lemma MiddleIdle(st: ScanState)
    requires !st.started
    ensures ScanFrom(st, Middle) == st
  {
    MiddleFixed();
    forall k | 0 <= k < |Middle| ensures !StartsWith(Middle[k], ContextMarker) {
      FixedNotContext(Middle[k]);
    }
    ScanIdle(st, Middle);
  }

  /** While collecting, the blank line and the history title add the title. */
  lemma MiddleCollected(parts: seq<string>)
    ensures ScanFrom(ScanState(true, parts), Middle) == ScanState(true, parts + [HistoryTitle])
  {
    var st := ScanState(true, parts);
    TitlePlain();
    CollectLine(st, HistoryTitle);
    assert ScanLine(st, []) == st;
    ScanPair(st, [], HistoryTitle);
  }

  /** Scanning two lines. */
  lemma ScanPair(st: ScanState, x: string, y: string)
    ensures ScanFrom(st, [x, y]) == ScanLine(ScanLine(st, x), y)
  {
    var s1 := ScanLine(st, x);
    assert [x, y][1..] == [y];
    assert ScanFrom(st, [x, y]) == ScanFrom(s1, [y]);
    assert [y][1..] == [];
    assert ScanFrom(s1, [y]) == ScanFrom(ScanLine(s1, y), []);
  }

  /** The question line closes collection, and nothing after it is collected. */
  lemma QuestionCloses(st: ScanState, userMessage: string)
    ensures ScanFrom(st, ["", QuestionLine(userMessage)] + Closing) == ScanState(false, st.parts)
  {
    var q := QuestionLine(userMessage);
    var closed := ScanState(false, st.parts);
    assert q[..|ContextMarker|][0] == 'C';
    assert q[..|QuestionMarker|] == QuestionMarker;
    assert ScanLine(st, []) == st;
    assert ScanLine(st, q) == closed;
    ScanAppend(st, ["", q], Closing);
    ScanPair(st, "", q);
    ClosingFixed();
    forall k | 0 <= k < |Closing| ensures !StartsWith(Closing[k], ContextMarker) {
      FixedNotContext(Closing[k]);
    }
    ScanIdle(closed, Closing);
  }

  /** The template's head changes nothing before collection opens. */
  lemma HeadIdle(st: ScanState)
    requires !st.started
    ensures ScanFrom(st, Head) == st
  {
    HeadFixed();
    forall k | 0 <= k < |Head| ensures !StartsWith(Head[k], ContextMarker) {
      FixedNotContext(Head[k]);
    }
    ScanIdle(st, Head);
  }

  /** The history section's lines are plain, so they are collected whatever the hits. */
  lemma ScanPrompt(userMessage: string, hits: seq<Hit>, history: seq<Message>)
    requires hits != []
    requires forall k :: 0 <= k < |hits| ==> '\n' !in hits[k].text
    requires |RawContext(hits)| <= Config.MaxContextLength
    requires '\n' !in userMessage
    requires forall k :: 0 <= k < |history| ==> OneLine(history[k])
    ensures ScanFrom(ScanState(false, []), Split(BuildPrompt(userMessage, hits, history), '\n'))
            == ScanState(false, [HistoryTitle] + StripAll(Lines(Earlier(history))))
  {
    var a, b := Head, Split(ContextString(hits), '\n');
    var c, d := Middle, Split(HistorySection(history), '\n');
    var t := ["", QuestionLine(userMessage)] + Closing;
    PromptSplit(ContextString(hits), HistorySection(history), userMessage);
    var s0 := ScanState(false, []);
    ScanFive(s0, a, b, c, d, t);
    HeadIdle(s0);
    ContextLines(hits);
    ScanContext(s0, ContextBlocks(hits));
    MiddleCollected([]);
    assert [] + [HistoryTitle] == [HistoryTitle];
    HistoryCollected([HistoryTitle], history);
    QuestionCloses(ScanState(true, [HistoryTitle] + StripAll(Lines(Earlier(history)))), userMessage);
  }

  /**
   * The answer to a prompt over hits whose texts are single lines and fit the context limit
   * is built from the history title and the earlier messages' lines alone: every
   * "[Context n]:" line opens collection without being collected, and the blank line after
   * it is skipped.
   */
  lemma AnswerFromHistory(userMessage: string, hits: seq<Hit>, history: seq<Message>)
    requires hits != []
    requires forall k :: 0 <= k < |hits| ==> '\n' !in hits[k].text
    requires |RawContext(hits)| <= Config.MaxContextLength
    requires '\n' !in userMessage
    requires forall k :: 0 <= k < |history| ==> OneLine(history[k])
    ensures GenerateResponse(BuildPrompt(userMessage, hits, history))
            == Respond([HistoryTitle] + StripAll(Lines(Earlier(history))))
  {
    ScanPrompt(userMessage, hits, history);
  }

  /** Under the same conditions, which documents were retrieved does not change the answer. */
  lemma AnswerIgnoresDocuments(userMessage: string, hits1: seq<Hit>, hits2: seq<Hit>, history: seq<Message>)
    requires hits1 != [] && hits2 != []
    requires forall k :: 0 <= k < |hits1| ==> '\n' !in hits1[k].text
    requires forall k :: 0 <= k < |hits2| ==> '\n' !in hits2[k].text
    requires |RawContext(hits1)| <= Config.MaxContextLength && |RawContext(hits2)| <= Config.MaxContextLength
    requires '\n' !in userMessage
    requires forall k :: 0 <= k < |history| ==> OneLine(history[k])
    ensures GenerateResponse(BuildPrompt(userMessage, hits1, history))
            == GenerateResponse(BuildPrompt(userMessage, hits2, history))
  {
    AnswerFromHistory(userMessage, hits1, history);
    AnswerFromHistory(userMessage, hits2, history);
  }

  /** On a session's first message the answer is the introduction and the history title. */
  lemma FirstTurnAnswer(userMessage: string, hits: seq<Hit>, history: seq<Message>)
    requires hits != []
    requires forall k :: 0 <= k < |hits| ==> '\n' !in hits[k].text
    requires |RawContext(hits)| <= Config.MaxContextLength
    requires '\n' !in userMessage
    requires |history| <= 1 && forall k :: 0 <= k < |history| ==> OneLine(history[k])
    ensures GenerateResponse(BuildPrompt(userMessage, hits, history)) == Intro + HistoryTitle
  {
    AnswerFromHistory(userMessage, hits, history);
    assert StripAll(Lines(Earlier(history))) == [];
    assert [HistoryTitle] + [] == [HistoryTitle];
    SlicePrefix(HistoryTitle, QuoteLength);
  }

  /** With nothing retrieved the prompt has no context line, so the answer is the apology. */
  lemma NoHitsNotFound(userMessage: string, history: seq<Message>)
    requires '\n' !in userMessage
    requires forall k :: 0 <= k < |history| ==> OneLine(history[k])
    ensures GenerateResponse(BuildPrompt(userMessage, [], history)) == NotFound
  {
    NoHitsScan(userMessage, history);
  }

  /** With nothing retrieved, scanning the prompt collects nothing. */
  lemma NoHitsScan(userMessage: string, history: seq<Message>)
    requires '\n' !in userMessage
    requires forall k :: 0 <= k < |history| ==> OneLine(history[k])
    ensures ScanFrom(ScanState(false, []), Split(BuildPrompt(userMessage, [], history), '\n'))
            == ScanState(false, [])
  {
    var d := Split(HistorySection(history), '\n');
    var t := ["", QuestionLine(userMessage)] + Closing;
    NoHitsLines(userMessage, history);
    var s0 := ScanState(false, []);
    ScanFive(s0, Head, [[]], Middle, d, t);
    HeadIdle(s0);
    ScanIdle(s0, [[]]);
    MiddleIdle(s0);
    HistoryIdle(s0, history);
    QuestionCloses(s0, userMessage);
  }

  /** With nothing retrieved, the context section is one empty line. */
  lemma NoHitsLines(userMessage: string, history: seq<Message>)
    requires '\n' !in userMessage
    ensures Split(BuildPrompt(userMessage, [], history), '\n')
            == Head + [[]] + Middle + Split(HistorySection(history), '\n') + (["", QuestionLine(userMessage)] + Closing)
  {
    assert ContextBlocks([]) == [];
    PromptSplit([], HistorySection(history), userMessage);
    SplitNoSeparator([], '\n');
  }

  // ---------------------------------------------------------------------------
  // The service
  // ---------------------------------------------------------------------------

  /** How many of the latest messages a chat turn reads back from the session log. */
  const HistoryWindow: int := 10

  /** The document of every hit, in hit order. */
  function DocumentIds(hits: seq<Hit>): (r: seq<string>)
    ensures |r| == |hits|
    ensures forall k :: 0 <= k < |hits| ==> r[k] == hits[k].documentId
  {
    seq(|hits|, k requires 0 <= k < |hits| => hits[k].documentId)
  }

  /**
   * `list(set(ids))`: every id once. Python leaves the order to the set; this keeps the
   * first occurrences in order, and only the membership and the absence of repeats are stated.
   */
  function Distinctly(ids: seq<string>): (r: seq<string>)
    ensures Distinct(r)
    ensures forall x :: x in r <==> x in ids
  {
    if ids == [] then []
    else
      var last := ids[|ids| - 1];
      var d := Distinctly(ids[..|ids| - 1]);
      assert ids == ids[..|ids| - 1] + [last];
      if last in d then d else d + [last]
  }

  /**
   * A turn keeps only the latest ten messages, the current one among them, so the prompt
   * shows at most the nine messages before it.
   */
  lemma ChatHistoryWindow(before: seq<Message>, current: Message)
    ensures var m := if |before| < HistoryWindow - 1 then |before| else HistoryWindow - 1;
            Earlier(Recent(before + [current], Some(HistoryWindow))) == before[|before| - m..]
  {
    var h := before + [current];
    var m := if |before| < HistoryWindow - 1 then |before| else HistoryWindow - 1;
    var r := Recent(h, Some(HistoryWindow));
    assert r == h[|h| - (m + 1)..];
    if m > 0 {
      assert r[..|r| - 1] == before[|before| - m..];
    }
  }

  /** The answer to a question asked after the messages `before`, given what was retrieved. */
  function Reply(userMessage: string, hits: seq<Hit>, before: seq<Message>): string {
    GenerateResponse(BuildPrompt(userMessage, hits, Recent(before + [Message("user", userMessage)], Some(HistoryWindow))))
  }

  /** `CustomRAGService` over the session log and the vector store it shares with ingestion. */
  class ChatService {
    const memory: RedisMemoryManager
    const index: MockQdrantManager
    /** The embedding model; the embedding manager is not part of this model. */
    const embed: string -> seq<real>

    constructor(memory: RedisMemoryManager, index: MockQdrantManager, embed: string -> seq<real>)
      ensures this.memory == memory && this.index == index && this.embed == embed
    {
      this.memory := memory;
      this.index := index;
      this.embed := embed;
    }

    /** What a question retrieves from the store: the best `top_k` hits over all documents. */
    function Retrieved(): seq<Hit>
      reads index
    {
      Search(index.order, index.vectors, Config.TopKRetrieval, None)
    }

    /** `_retrieve_context`: the mock store ignores the query's embedding. */
    method RetrieveContext(query: string) returns (hits: seq<Hit>)
      requires index.Valid()
      ensures hits == Retrieved()
    {
      hits := index.SearchSimilar(embed(query), Config.TopKRetrieval, None);
    }

    /**
     * Steps 1 to 5 of `chat`: log the question, retrieve, read back the recent history (which
     * ends with the question) and answer from the prompt.
     */
    method Answer(sessionId: string, userMessage: string) returns (response: string, hits: seq<Hit>)
      requires index.Valid()
      modifies memory.client
      ensures hits == Retrieved()
      ensures response == Reply(userMessage, hits, old(memory.History(sessionId)))
      ensures memory.History(sessionId) == old(memory.History(sessionId)) + [Message("user", userMessage)]
      ensures forall other :: other != sessionId ==>
                memory.History(other) == old(memory.History(other))
                && (memory.Known(other) <==> old(memory.Known(other)))
    {
      memory.AddMessage(sessionId, "user", userMessage);
      hits := RetrieveContext(userMessage);
      var history := memory.GetConversationHistory(sessionId, Some(HistoryWindow));
      response := GenerateResponse(BuildPrompt(userMessage, hits, history));
    }

    /**
     * Steps 6 and 7 of `chat`: log the answer after the question and report the distinct
     * documents of the hits.
     */
    method Conclude(sessionId: string, response: string, hits: seq<Hit>) returns (sources: seq<string>)
      modifies memory.client
      ensures memory.History(sessionId) == old(memory.History(sessionId)) + [Message("assistant", response)]
      ensures memory.Known(sessionId)
      ensures Distinct(sources) && forall d :: d in sources <==> d in DocumentIds(hits)
      ensures forall other :: other != sessionId ==>
                memory.History(other) == old(memory.History(other))
                && (memory.Known(other) <==> old(memory.Known(other)))
    {
      memory.AddMessage(sessionId, "assistant", response);
      sources := Distinctly(DocumentIds(hits));
    }

    /**
     * `chat`: answer the question, log the answer after it, and report the hits' documents.
     */
    method Chat(sessionId: string, userMessage: string) returns (response: string, sources: seq<string>)
      requires index.Valid()
      modifies memory.client
      ensures response == Reply(userMessage, Retrieved(), old(memory.History(sessionId)))
      ensures memory.History(sessionId)
              == old(memory.History(sessionId)) + [Message("user", userMessage), Message("assistant", response)]
      ensures Distinct(sources) && forall d :: d in sources <==> d in DocumentIds(Retrieved())
      ensures memory.Known(sessionId)
      ensures forall other :: other != sessionId ==>
                memory.History(other) == old(memory.History(other))
                && (memory.Known(other) <==> old(memory.Known(other)))
    {
      ghost var before := memory.History(sessionId);
      var hits;
      response, hits := Answer(sessionId, userMessage);
      sources := Conclude(sessionId, response, hits);
      assert hits == Retrieved();
      AppendPair(before, Message("user", userMessage), Message("assistant", response));
    }

    /** `clear_session`: whether the session had a log; afterwards it has none. */
    method ClearSession(sessionId: string) returns (cleared: bool)
      modifies memory.client
      ensures cleared == old(memory.Known(sessionId))
      ensures !memory.Known(sessionId) && memory.History(sessionId) == []
      ensures forall other :: other != sessionId ==>
                memory.History(other) == old(memory.History(other))
                && (memory.Known(other) <==> old(memory.Known(other)))
    {
      cleared := memory.ClearSession(sessionId);
    }

    /** `get_session_history`: the whole log, oldest first. */
    method GetSessionHistory(sessionId: string) returns (messages: seq<Message>)
      ensures messages == memory.History(sessionId)
    {
      messages := memory.GetConversationHistory(sessionId, None);
    }
  }
}
