/**
 * The two chunking strategies of the ingestion path and the factory that picks one
 * (app/utils/chunking.py). Both strategies first normalise whitespace; fixed-size
 * chunking then slides a window over the text, semantic chunking accumulates sentences
 * against a target, a minimum and a maximum length.
 */
module Chunking {
  import opened Wrappers
  import opened Text
  import opened Slices
  import Config

  // ---------------------------------------------------------------------------
  // Text cleaning and the two regular-expression splits
  // ---------------------------------------------------------------------------

  /** `_clean_text`: each whitespace run becomes one space, then both ends are stripped. */
  function CleanText(s: string): (r: string)
    ensures Normalized(r)
    ensures r == [] <==> AllSpace(s)
  {
    var c := Collapse(s);
    var r := Strip(c);
    CleanFacts(s, c, r);
    r
  }

  /** Stripping collapsed text leaves single spaces between non-space characters only. */
  lemma CleanFacts(s: string, c: string, r: string)
    requires c == Collapse(s) && r == Strip(c)
    ensures Normalized(r)
    ensures r == [] <==> AllSpace(s)
  {
    CollapseAllSpace(s);
    var sr := StripRight(c);
    SingleSpacedPrefix(c, |sr|);
    SingleSpacedSuffix(sr, |sr| - |r|);
  }

  /** Cleaning text that is already clean changes nothing. */
  lemma CleanTextIdempotent(s: string)
    ensures CleanText(CleanText(s)) == CleanText(s)
  {
    NormalizedClean(CleanText(s));
  }

  /** Normalised text is its own cleaning. */
  lemma {:induction false} NormalizedClean(t: string)
    requires Normalized(t)
    ensures CleanText(t) == t
  {
    NormalizedCollapse(t);
    StripTrimmed(t);
  }

  /** Collapsing whitespace does nothing to text whose only whitespace is single spaces. */
  lemma {:induction false} NormalizedCollapse(t: string)
    requires SingleSpaced(t) && (t == [] || !IsSpace(t[|t| - 1]))
    ensures Collapse(t) == t
    decreases |t|
  {
    if t != [] {
      var rest := t[1..];
      SingleSpacedSuffix(t, 1);
      assert rest == [] || rest[|rest| - 1] == t[|t| - 1];
      if IsSpace(t[0]) {
        SingleSpacedHead(t);
        assert StripLeft(rest) == rest;
      }
      NormalizedCollapse(rest);
      ConsDrop(t);
    }
  }


  /** `[p.strip() for p in pieces if p.strip()]`. */
  function StripNonBlank(xs: seq<string>): (r: seq<string>)
    ensures |r| <= |xs|
    ensures forall k :: 0 <= k < |r| ==> r[k] != [] && Trimmed(r[k])
  {
    if xs == [] then []
    else
      var p := Strip(xs[|xs| - 1]);
      StripNonBlank(xs[..|xs| - 1]) + (if p != [] then [p] else [])
  }

  /** Appending a piece appends its stripped form when that is not blank. */
  lemma StripNonBlankSnoc(xs: seq<string>, x: string)
    ensures StripNonBlank(xs + [x]) == StripNonBlank(xs) + (if Strip(x) != [] then [Strip(x)] else [])
  {
    TakeSnoc(xs, x);
  }

  /** A single piece gives its stripped form, or nothing when it is blank. */
  lemma StripNonBlankOne(x: string)
    ensures StripNonBlank([x]) == if Strip(x) != [] then [Strip(x)] else []
  {
    StripNonBlankSnoc([], x);
    assert [] + [x] == [x];
  }

  /** Pieces that are already non-empty and stripped pass through unchanged. */
  lemma {:induction false} StripNonBlankKeeps(xs: seq<string>)
    requires forall k :: 0 <= k < |xs| ==> xs[k] != [] && Trimmed(xs[k])
    ensures StripNonBlank(xs) == xs
  {
    if xs != [] {
      var init, x := xs[..|xs| - 1], xs[|xs| - 1];
      assert forall k :: 0 <= k < |init| ==> init[k] == xs[k];
      StripNonBlankKeeps(init);
      StripTrimmed(x);
      assert StripNonBlank(xs) == init + [x];
      TakeLast(xs);
    }
  }

  /** Stripping never lengthens a piece, so a bound on the pieces bounds the result. */
  lemma {:induction false} StripNonBlankBound(xs: seq<string>, n: int)
    requires forall k :: 0 <= k < |xs| ==> |xs[k]| <= n
    ensures forall k :: 0 <= k < |StripNonBlank(xs)| ==> |StripNonBlank(xs)[k]| <= n
  {
    if xs != [] {
      var init, x := xs[..|xs| - 1], xs[|xs| - 1];
      assert forall k :: 0 <= k < |init| ==> init[k] == xs[k];
      StripNonBlankBound(init, n);
      var front, r := StripNonBlank(init), StripNonBlank(xs);
      assert r == front + (if Strip(x) != [] then [Strip(x)] else []);
      forall k | 0 <= k < |r| ensures |r[k]| <= n {
        if k < |front| {
          assert r[k] == front[k];
        } else {
          assert r[k] == Strip(x);
        }
      }
    }
  }

  /** Every piece is whitespace only. */
  predicate AllBlank(xs: seq<string>) {
    forall k :: 0 <= k < |xs| ==> AllSpace(xs[k])
  }

  /** A list is all blank when its front is and its last piece is. */
  lemma AllBlankSnoc(xs: seq<string>)
    requires xs != []
    ensures AllBlank(xs) <==> AllBlank(xs[..|xs| - 1]) && AllSpace(xs[|xs| - 1])
  {
    var init := xs[..|xs| - 1];
    if AllBlank(init) && AllSpace(xs[|xs| - 1]) {
      forall k | 0 <= k < |xs| ensures AllSpace(xs[k]) {
        if k < |init| { assert xs[k] == init[k]; }
      }
    }
    if AllBlank(xs) {
      forall k | 0 <= k < |init| ensures AllSpace(init[k]) {
        assert init[k] == xs[k];
      }
    }
  }

  /** The result is empty exactly when every piece is blank. */
  lemma {:induction false} StripNonBlankEmpty(xs: seq<string>)
    ensures StripNonBlank(xs) == [] <==> AllBlank(xs)
  {
    if xs != [] {
      var init, x := xs[..|xs| - 1], xs[|xs| - 1];
      StripNonBlankEmpty(init);
      AllBlankSnoc(xs);
      assert StripNonBlank(xs) == StripNonBlank(init) + (if Strip(x) != [] then [Strip(x)] else []);
    }
  }

  /** The end of the run of whitespace starting at p. */
  function SpaceRunEnd(s: string, p: nat): (e: nat)
    requires p <= |s|
    ensures p <= e <= |s|
    ensures forall i :: p <= i < e ==> IsSpace(s[i])
    ensures e == |s| || !IsSpace(s[e])
    decreases |s| - p
  {
    if p < |s| && IsSpace(s[p]) then SpaceRunEnd(s, p + 1) else p
  }

  /** The last q in [a, b) with s[q] == '\n'. */
  function LastNewline(s: string, a: nat, b: nat): (q: Option<nat>)
    requires a <= b <= |s|
    ensures q.Some? ==> a <= q.value < b && s[q.value] == '\n'
    decreases b
  {
    if a == b then None
    else if s[b - 1] == '\n' then Some(b - 1)
    else LastNewline(s, a, b - 1)
  }

  /** The last q in [a, b - 1) with s[q..q + 2] == "\r\n". */
  function LastCrLf(s: string, a: nat, b: nat): (q: Option<nat>)
    requires a <= b <= |s|
    ensures q.Some? ==> a <= q.value && q.value + 1 < b && s[q.value] == '\r' && s[q.value + 1] == '\n'
    decreases b
  {
    if b < a + 2 then None
    else if s[b - 2] == '\r' && s[b - 1] == '\n' then Some(b - 2)
    else LastCrLf(s, a, b - 1)
  }

  /**
   * Where a match of the paragraph separator `\n\s*\n|\r\n\s*\r\n` starting at p ends, if
   * one starts there: the greedy `\s*` backs off to the last line break of the whitespace run.
   */
  function ParagraphBreakAt(s: string, p: nat): (e: Option<nat>)
    ensures e.Some? ==> p < e.value <= |s|
  {
    if p < |s| && s[p] == '\n' then
      match LastNewline(s, p + 1, SpaceRunEnd(s, p + 1))
      case Some(q) => Some(q + 1)
      case None => None
    else if p + 1 < |s| && s[p] == '\r' && s[p + 1] == '\n' then
      match LastCrLf(s, p + 2, SpaceRunEnd(s, p + 2))
      case Some(q) => Some(q + 2)
      case None => None
    else None
  }

  /**
   * Where a match of the sentence separator `(?<=[.!?])\s+(?=[A-Z])` starting at p ends, if one
   * starts there: the whole whitespace run after a `.`, `!` or `?`, when an ASCII capital follows it.
   */
  function SentenceBreakAt(s: string, p: nat): (e: Option<nat>)
    ensures e.Some? ==> 0 < p < e.value < |s| && IsSpace(s[p]) && s[p - 1] in ".!?" && 'A' <= s[e.value] <= 'Z'
  {
    if 0 < p < |s| && s[p - 1] in ".!?" && IsSpace(s[p]) then
      var e := SpaceRunEnd(s, p);
      if e < |s| && 'A' <= s[e] <= 'Z' then Some(e) else None
    else None
  }

  /**
   * `re.split` with a separator that never matches the empty string: scanning from `pos`,
   * `m(s, p)` says where a separator match starting at p ends; the piece under construction
   * began at `start`.
   */
  function SplitAt(s: string, m: (string, nat) -> Option<nat>, pos: nat, start: nat): (r: seq<string>)
    requires start <= pos <= |s|
    ensures |r| >= 1
    decreases |s| - pos
  {
    if pos == |s| then [s[start..]]
    else
      var next := m(s, pos);
      if next.Some? && pos < next.value <= |s| then [s[start..pos]] + SplitAt(s, m, next.value, next.value)
      else SplitAt(s, m, pos + 1, start)
  }

  /** `_split_paragraphs`: the stripped, non-blank pieces between paragraph breaks. */
  function SplitParagraphs(t: string): (r: seq<string>)
    ensures forall k :: 0 <= k < |r| ==> r[k] != [] && Trimmed(r[k])
  {
    StripNonBlank(SplitAt(t, ParagraphBreakAt, 0, 0))
  }

  /** `_split_sentences`: the stripped, non-blank pieces between sentence breaks. */
  function SplitSentences(t: string): (r: seq<string>)
    ensures forall k :: 0 <= k < |r| ==> r[k] != [] && Trimmed(r[k])
  {
    StripNonBlank(SplitAt(t, SentenceBreakAt, 0, 0))
  }

  /** Text without line breaks has no paragraph break. */
  lemma {:induction false} NoParagraphBreak(t: string, pos: nat, start: nat)
    requires start <= pos <= |t|
    requires '\n' !in t && '\r' !in t
    ensures SplitAt(t, ParagraphBreakAt, pos, start) == [t[start..]]
    decreases |t| - pos
  {
    if pos < |t| {
      assert ParagraphBreakAt(t, pos).None?;
      NoParagraphBreak(t, pos + 1, start);
    }
  }

  /** In normalised text the only whitespace character is the space. */
  lemma NormalizedHasNoLineBreak(t: string)
    requires Normalized(t)
    ensures '\n' !in t && '\r' !in t
  {
    forall i | 0 <= i < |t| ensures t[i] != '\n' && t[i] != '\r' {
      if t[i] == '\n' || t[i] == '\r' {
        assert IsSpace(t[i]);
      }
    }
  }

  /**
   * Cleaned text has no line breaks left, so it is never split into paragraphs: it is a
   * single paragraph, or none when it is empty.
   */
  lemma ParagraphsOfCleanText(s: string)
    ensures var t := CleanText(s); SplitParagraphs(t) == if t == [] then [] else [t]
  {
    ParagraphsOfNormalized(CleanText(s));
  }

  /** Normalised text is one paragraph, or none when it is empty. */
  lemma ParagraphsOfNormalized(t: string)
    requires Normalized(t)
    ensures SplitParagraphs(t) == if t == [] then [] else [t]
  {
    NormalizedHasNoLineBreak(t);
    NoParagraphBreak(t, 0, 0);
    TakeAll(t);
    var pieces := SplitAt(t, ParagraphBreakAt, 0, 0);
    assert pieces == [t];
    if t == [] {
      TakeSnoc([], t);
      assert Strip(t) == [];
    } else {
      StripNonBlankKeeps(pieces);
    }
  }

  /** In normalised text a sentence break is one space between two non-space characters. */
  lemma SentenceBreakInNormalized(t: string, pos: nat)
    requires Normalized(t) && SentenceBreakAt(t, pos).Some?
    ensures SentenceBreakAt(t, pos).value == pos + 1
    ensures t[pos] == ' ' && !IsSpace(t[pos - 1]) && !IsSpace(t[pos + 1])
  {
    assert IsSpace(t[pos]);
    assert !IsSpace(t[pos + 1]);
    assert !IsSpace(t[pos - 1]);
  }

  /** A piece of normalised text that runs between two non-space characters is stripped. */
  lemma PieceTrimmed(t: string, start: nat, pos: nat)
    requires start < pos <= |t| && !IsSpace(t[start]) && !IsSpace(t[pos - 1])
    ensures t[start..pos] != [] && Trimmed(t[start..pos])
  {
  }

  /** Putting a non-empty stripped piece in front of non-empty stripped pieces keeps them so. */
  lemma PiecesCons(x: string, rest: seq<string>)
    requires x != [] && Trimmed(x)
    requires forall k :: 0 <= k < |rest| ==> rest[k] != [] && Trimmed(rest[k])
    ensures var ps := [x] + rest; forall k :: 0 <= k < |ps| ==> ps[k] != [] && Trimmed(ps[k])
  {
    var ps := [x] + rest;
    forall k | 0 <= k < |ps| ensures ps[k] != [] && Trimmed(ps[k]) {
      if k > 0 {
        assert ps[k] == rest[k - 1];
      }
    }
  }

  /** The text from `start` on is the piece up to a single space, the space, and the rest. */
  lemma CutAtSpace(t: string, start: nat, pos: nat, rest: seq<string>)
    requires start <= pos < |t| && t[pos] == ' ' && rest != [] && Join(rest, " ") == t[pos + 1..]
    ensures Join([t[start..pos]] + rest, " ") == t[start..]
  {
    var ps := [t[start..pos]] + rest;
    assert ps[1..] == rest;
    assert t[start..] == t[start..pos] + " " + t[pos + 1..];
  }

  /** Pieces that are all non-empty and stripped and that join with single spaces into `x`. */
  ghost predicate SpaceJoined(ps: seq<string>, x: string) {
    (forall k :: 0 <= k < |ps| ==> ps[k] != [] && Trimmed(ps[k])) && Join(ps, " ") == x
  }

  /** A sentence break at `pos`: the piece before it goes in front of the pieces after it. */
  lemma SentenceCut(t: string, pos: nat, start: nat)
    requires Normalized(t) && start < pos < |t| && !IsSpace(t[start])
    requires SentenceBreakAt(t, pos).Some?
    requires SpaceJoined(SplitAt(t, SentenceBreakAt, pos + 1, pos + 1), t[pos + 1..])
    ensures SpaceJoined(SplitAt(t, SentenceBreakAt, pos, start), t[start..])
  {
    SentenceBreakInNormalized(t, pos);
    var rest := SplitAt(t, SentenceBreakAt, pos + 1, pos + 1);
    assert SplitAt(t, SentenceBreakAt, pos, start) == [t[start..pos]] + rest;
    PieceTrimmed(t, start, pos);
    PiecesCons(t[start..pos], rest);
    CutAtSpace(t, start, pos, rest);
  }

  /** At the end of the text the piece under construction is the last one. */
  lemma SentenceLast(t: string, start: nat)
    requires Normalized(t) && start < |t| && !IsSpace(t[start])
    ensures SpaceJoined(SplitAt(t, SentenceBreakAt, |t|, start), t[start..])
  {
    PieceTrimmed(t, start, |t|);
    assert SplitAt(t, SentenceBreakAt, |t|, start) == [t[start..]];
  }

  /** No sentence break at `pos`: the scan moves on. */
  lemma SentenceSkip(t: string, pos: nat, start: nat)
    requires start <= pos < |t| && SentenceBreakAt(t, pos).None?
    ensures SplitAt(t, SentenceBreakAt, pos, start) == SplitAt(t, SentenceBreakAt, pos + 1, start)
  {
  }

  /**
   * On normalised text each sentence break is a single space, so the raw pieces are non-empty
   * and stripped, and joining them with spaces gives back the text from `start` on.
   */
  lemma {:induction false} SentencePieces(t: string, pos: nat, start: nat)
    requires Normalized(t)
    requires start <= pos <= |t| && start < |t| && !IsSpace(t[start])
    ensures SpaceJoined(SplitAt(t, SentenceBreakAt, pos, start), t[start..])
    decreases |t| - pos
  {
    if pos == |t| {
      SentenceLast(t, start);
    } else if SentenceBreakAt(t, pos).Some? {
      SentenceBreakInNormalized(t, pos);
      SentencePieces(t, pos + 1, pos + 1);
      SentenceCut(t, pos, start);
    } else {
      SentencePieces(t, pos + 1, start);
      SentenceSkip(t, pos, start);
    }
  }

  /** Joining the sentences of normalised text with single spaces reproduces the text. */
  lemma SentencesOfNormalized(t: string)
    requires Normalized(t) && t != []
    ensures Join(SplitSentences(t), " ") == t
  {
    SentencePieces(t, 0, 0);
    StripNonBlankKeeps(SplitAt(t, SentenceBreakAt, 0, 0));
    TakeAll(t);
  }

  // ---------------------------------------------------------------------------
  // Fixed-size chunking with overlap
  // ---------------------------------------------------------------------------

  /**
   * The windows `text[start:start + size]` the loop of `FixedSizeChunking.chunk_text` slices
   * once it has reached `start`: while start is below the text length it takes a window,
   * then either stops (size <= overlap) or moves start on by size - overlap.
   */
  function WindowsFrom(t: string, size: int, overlap: int, start: nat): seq<string>
    decreases |t| - start
  {
    if start >= |t| then []
    else if size <= overlap then [Slice(t, start, start + size)]
    else [Slice(t, start, start + size)] + WindowsFrom(t, size, overlap, start + size - overlap)
  }

  /** All windows of the loop over the cleaned text t. */
  function Windows(t: string, size: int, overlap: int): seq<string> {
    WindowsFrom(t, size, overlap, 0)
  }

  /** What fixed-size chunking returns: the stripped, non-blank windows over the cleaned text. */
  function FixedSizeChunks(text: string, size: int, overlap: int): seq<string> {
    if text == [] then [] else StripNonBlank(Windows(CleanText(text), size, overlap))
  }

  /**
   * `chunk_text` of `FixedSizeChunking`: a while loop that slices a window, keeps it stripped when
   * it is not blank, advances the start by size - overlap, and breaks after the first
   * window when that step is not positive.
   */
  method FixedSizeChunkText(text: string, chunkSize: int, chunkOverlap: int) returns (chunks: seq<string>)
    ensures chunks == FixedSizeChunks(text, chunkSize, chunkOverlap)
  {
    if text == [] {
      return [];
    }
    var t := CleanText(text);
    chunks := [];
    var start := 0;
    var textLength := |t|;
    ghost var done: seq<string> := [];
    while start < textLength
      invariant start >= 0
      invariant Windows(t, chunkSize, chunkOverlap) == done + WindowsFrom(t, chunkSize, chunkOverlap, start)
      invariant chunks == StripNonBlank(done)
      decreases textLength - start
    {
      var end := start + chunkSize;
      var chunk := Slice(t, start, end);
      var stripped := Strip(chunk);
      if stripped != [] {
        chunks := chunks + [stripped];
      }
      ghost var before, from := done, start;
      done := done + [chunk];
      start := start + chunkSize - chunkOverlap;
      WindowsFromStep(t, chunkSize, chunkOverlap, before, from, end, start);
      StripNonBlankSnoc(before, chunk);
      if chunkSize <= chunkOverlap {
        break;
      }
    }
    WindowsFromPast(t, chunkSize, chunkOverlap, done, start);
  }

  /** One turn of the loop: the window at `start` joins those already taken. */
  lemma WindowsFromStep(t: string, size: int, overlap: int, done: seq<string>, start: nat, end: int, next: int)
    requires start < |t| && end == start + size && next == start + size - overlap
    requires Windows(t, size, overlap) == done + WindowsFrom(t, size, overlap, start)
    ensures size <= overlap ==> Windows(t, size, overlap) == done + [Slice(t, start, end)]
    ensures size > overlap ==>
              next >= 0 && Windows(t, size, overlap) == (done + [Slice(t, start, end)]) + WindowsFrom(t, size, overlap, next)
  {
    var w := Slice(t, start, end);
    if size > overlap {
      var rest := WindowsFrom(t, size, overlap, start + size - overlap);
      assert WindowsFrom(t, size, overlap, next) == rest;
      assert WindowsFrom(t, size, overlap, start) == [w] + rest;
      AppendAssoc(done, [w], rest);
    }
  }

  /** Once `start` is past the end no window is left. */
  lemma WindowsFromPast(t: string, size: int, overlap: int, done: seq<string>, start: int)
    ensures start >= |t| ==> done + WindowsFrom(t, size, overlap, start) == done
  {
    if start >= |t| {
      AppendEmpty(done);
    }
  }

  /** Windows starting at a non-negative position are at most `size` long. */
  lemma {:induction false} WindowsFromBound(t: string, size: int, overlap: int, start: nat)
    requires size > 0
    ensures forall k :: 0 <= k < |WindowsFrom(t, size, overlap, start)| ==> |WindowsFrom(t, size, overlap, start)[k]| <= size
    decreases |t| - start
  {
    if start < |t| {
      var w := Slice(t, start, start + size);
      SliceLength(t, start, start + size);
      if size > overlap {
        var rest := WindowsFrom(t, size, overlap, start + size - overlap);
        WindowsFromBound(t, size, overlap, start + size - overlap);
        assert WindowsFrom(t, size, overlap, start) == [w] + rest;
      } else {
        assert WindowsFrom(t, size, overlap, start) == [w];
      }
    }
  }

  /**
   * Every chunk is non-empty and carries no whitespace at its ends; with a positive size
   * every chunk is at most `size` characters long.
   */
  lemma FixedSizeChunkBounds(text: string, size: int, overlap: int)
    ensures forall c :: c in FixedSizeChunks(text, size, overlap) ==> c != [] && Trimmed(c)
    ensures size > 0 ==> forall c :: c in FixedSizeChunks(text, size, overlap) ==> |c| <= size
  {
    if text != [] && size > 0 {
      var ws := Windows(CleanText(text), size, overlap);
      WindowsFromBound(CleanText(text), size, overlap, 0);
      StripNonBlankBound(ws, size);
    }
  }

  /** k steps of `step`, counted one at a time as the loop does. */
  function Offset(k: nat, step: int): int {
    if k == 0 then 0 else Offset(k - 1, step) + step
  }

  lemma {:induction false} OffsetIsProduct(k: nat, step: int)
    ensures Offset(k, step) == k * step
  {
    if k > 0 {
      OffsetIsProduct(k - 1, step);
      assert (k - 1) * step + step == k * step;
    }
  }

  lemma MulMonotone(a: int, b: int, m: nat)
    requires a <= b
    ensures a * m <= b * m
  {
  }

  lemma DivBounds(p: nat, m: int)
    requires m > 0
    ensures (p / m) * m <= p < (p / m) * m + m
  {
  }

  /** Window k from `start` begins where window k - 1 from the next start does. */
  lemma OffsetNext(start: int, next: int, k: nat, step: int)
    requires k > 0 && next == start + step
    ensures start + Offset(k, step) == next + Offset(k - 1, step)
  {
  }

  /**
   * With a positive step window k of those from `start` is the slice at s = start + k * step,
   * and that start lies inside the text.
   */
  lemma {:induction false} WindowsFromAt(t: string, size: int, overlap: int, start: nat, k: nat, s: int)
    requires size > overlap
    requires k < |WindowsFrom(t, size, overlap, start)|
    requires s == start + Offset(k, size - overlap)
    ensures s < |t| && WindowsFrom(t, size, overlap, start)[k] == Slice(t, s, s + size)
    decreases k
  {
    var next := start + size - overlap;
    WindowsFromCons(t, size, overlap, start);
    if k > 0 {
      OffsetNext(start, next, k, size - overlap);
      WindowsFromAt(t, size, overlap, next, k - 1, s);
    }
  }

  /** A window starts below the end of the text, and the windows after it start one step further. */
  lemma WindowsFromCons(t: string, size: int, overlap: int, start: nat)
    requires size > overlap
    requires WindowsFrom(t, size, overlap, start) != []
    ensures start < |t|
    ensures WindowsFrom(t, size, overlap, start)
            == [Slice(t, start, start + size)] + WindowsFrom(t, size, overlap, start + size - overlap)
  {
  }

  /** With a positive step the loop stops at the first window start at or past the end of the text. */
  lemma {:induction false} WindowsFromEnd(t: string, size: int, overlap: int, start: nat)
    requires size > overlap
    ensures start + Offset(|WindowsFrom(t, size, overlap, start)|, size - overlap) >= |t|
    decreases |t| - start
  {
    if start < |t| {
      var rest := WindowsFrom(t, size, overlap, start + size - overlap);
      assert WindowsFrom(t, size, overlap, start) == [Slice(t, start, start + size)] + rest;
      WindowsFromEnd(t, size, overlap, start + size - overlap);
      assert Offset(|rest| + 1, size - overlap) == Offset(|rest|, size - overlap) + (size - overlap);
    }
  }

  /**
   * The window starts are 0, step, 2 * step, ..., each below the length of the text, and
   * the loop stops at the first multiple of the step at or past the end: with a positive step
   * there are ceil(n / step) windows over n characters.
   */
  lemma WindowStarts(t: string, size: int, overlap: int)
    requires size > overlap
    ensures var ws, step := Windows(t, size, overlap), size - overlap;
            && (forall k :: 0 <= k < |ws| ==> k * step < |t| && ws[k] == Slice(t, k * step, k * step + size))
            && |ws| * step >= |t|
            && (|t| > 0 ==> |ws| > 0)
  {
    var ws, step := Windows(t, size, overlap), size - overlap;
    forall k | 0 <= k < |ws|
      ensures k * step < |t| && ws[k] == Slice(t, k * step, k * step + size)
    {
      OffsetIsProduct(k, step);
      WindowsFromAt(t, size, overlap, 0, k, k * step);
    }
    WindowsFromEnd(t, size, overlap, 0);
    OffsetIsProduct(|ws|, step);
  }

  /** When the step is not positive the loop takes exactly one window, from the start of the text. */
  lemma WindowsDegenerate(t: string, size: int, overlap: int)
    requires size <= overlap && t != []
    ensures Windows(t, size, overlap) == [Slice(t, 0, size)]
  {
  }

  /**
   * With 0 <= overlap < size consecutive windows overlap, so every character of the cleaned
   * text lies in some window: position p lies in window p / step.
   */
  lemma WindowsCoverText(t: string, size: int, overlap: int, p: nat)
    requires 0 <= overlap < size && p < |t|
    ensures var step := size - overlap; var k := p / step;
            k < |Windows(t, size, overlap)| && k * step <= p < k * step + size
  {
    var step := size - overlap;
    var k := p / step;
    var n := |Windows(t, size, overlap)|;
    WindowStarts(t, size, overlap);
    DivBounds(p, step);
    if n <= k {
      MulMonotone(n, k, step);
    }
  }

  /** When size <= overlap the loop stops after one window: at most one chunk, from the first `size` characters. */
  lemma FixedSizeDegenerate(text: string, size: int, overlap: int)
    requires size <= overlap
    ensures var chunks := FixedSizeChunks(text, size, overlap);
            |chunks| <= 1 && (chunks != [] ==> chunks[0] == Strip(Slice(CleanText(text), 0, size)))
  {
    if text != [] {
      var t := CleanText(text);
      if t != [] {
        WindowsDegenerate(t, size, overlap);
        StripNonBlankOne(Slice(t, 0, size));
      }
    }
  }

  /** The first window of non-empty text is its first `size` characters. */
  lemma WindowsFirst(t: string, size: int, overlap: int)
    requires t != []
    ensures |Windows(t, size, overlap)| > 0 && Windows(t, size, overlap)[0] == Slice(t, 0, size)
  {
  }

  /** With a positive size there are no chunks exactly when the text is blank. */
  lemma FixedSizeEmptyIffBlank(text: string, size: int, overlap: int)
    requires size > 0
    ensures FixedSizeChunks(text, size, overlap) == [] <==> AllSpace(text)
  {
    if text != [] {
      WindowsBlank(CleanText(text), size, overlap);
    }
  }

  /** Over stripped text the windows are all blank exactly when the text is empty. */
  lemma WindowsBlank(t: string, size: int, overlap: int)
    requires size > 0 && Trimmed(t)
    ensures StripNonBlank(Windows(t, size, overlap)) == [] <==> t == []
  {
    var ws := Windows(t, size, overlap);
    StripNonBlankEmpty(ws);
    if t == [] {
      assert ws == [];
    } else {
      WindowsFirst(t, size, overlap);
      var first := Slice(t, 0, size);
      assert first[0] == t[0] && !IsSpace(t[0]);
      assert !AllSpace(first);
      assert ws[0] == first;
      assert !AllBlank(ws);
    }
  }

  // ---------------------------------------------------------------------------
  // Semantic chunking
  // ---------------------------------------------------------------------------

  /** The sentences of each paragraph, in order: what the two nested loops of `chunk_text` visit. */
  function AllSentences(paras: seq<string>): (r: seq<string>)
    ensures forall k :: 0 <= k < |r| ==> r[k] != [] && Trimmed(r[k])
  {
    if paras == [] then []
    else AllSentences(paras[..|paras| - 1]) + SplitSentences(paras[|paras| - 1])
  }

  /** The sentences `SemanticChunking.chunk_text` accumulates for `text`. */
  function SentencesOf(text: string): seq<string> {
    AllSentences(SplitParagraphs(CleanText(text)))
  }

  /** The loop state: the chunks emitted so far and the chunk under construction. */
  datatype Acc = Acc(chunks: seq<string>, current: string)

  /** The chunk under construction with one more sentence: joined by a space unless it is empty. */
  function Potential(current: string, sentence: string): string {
    if current != [] then current + " " + sentence else sentence
  }

  /**
   * One sentence of the inner loop, with maximum 2 * target and minimum target // 2: past the
   * maximum, emit the current chunk when it meets the minimum and start over from the sentence,
   * otherwise emit everything; at or past the target emit everything; below it keep accumulating.
   */
  function Step(a: Acc, sentence: string, target: int): Acc {
    var potential := Potential(a.current, sentence);
    if |potential| > target * 2 then
      if |a.current| >= target / 2 then Acc(a.chunks + [Strip(a.current)], sentence)
      else Acc(a.chunks + [Strip(potential)], [])
    else if |potential| >= target then Acc(a.chunks + [Strip(potential)], [])
    else Acc(a.chunks, potential)
  }

  /** The loop state after the sentences ss, starting from no chunks and an empty current chunk. */
  function Fold(ss: seq<string>, target: int): Acc {
    if ss == [] then Acc([], [])
    else Step(Fold(ss[..|ss| - 1], target), ss[|ss| - 1], target)
  }

  /** After the loops the current chunk is emitted when it is not blank. */
  function Finish(a: Acc): seq<string> {
    a.chunks + (if Strip(a.current) != [] then [Strip(a.current)] else [])
  }

  /** What semantic chunking returns for `text` with target size `target`. */
  function SemanticChunks(text: string, target: int): seq<string> {
    if text == [] then [] else Finish(Fold(SentencesOf(text), target))
  }

  lemma FoldSnoc(ss: seq<string>, x: string, target: int)
    ensures Fold(ss + [x], target) == Step(Fold(ss, target), x, target)
  {
    TakeSnoc(ss, x);
  }

  lemma AllSentencesSnoc(paras: seq<string>, i: nat)
    requires i < |paras|
    ensures AllSentences(paras[..i + 1]) == AllSentences(paras[..i]) + SplitSentences(paras[i])
  {
    TakeTake(paras, i);
  }

  /** The body of the inner loop of `chunk_text`: one sentence against the size limits. */
  method AddSentence(chunks: seq<string>, current: string, sentence: string, target: int)
    returns (chunks': seq<string>, current': string)
    ensures Acc(chunks', current') == Step(Acc(chunks, current), sentence, target)
  {
    chunks', current' := chunks, current;
    var potential := Potential(current, sentence);
    if |potential| > target * 2 {
      if |current| >= target / 2 {
        chunks' := chunks + [Strip(current)];
        current' := sentence;
      } else {
        chunks' := chunks + [Strip(potential)];
        current' := "";
      }
    } else if |potential| >= target {
      chunks' := chunks + [Strip(potential)];
      current' := "";
    } else {
      current' := potential;
    }
  }

  /**
   * `chunk_text` of `SemanticChunking`: clean the text, split it into paragraphs and
   * accumulate their sentences.
   */
  method SemanticChunkText(text: string, target: int) returns (chunks: seq<string>)
    ensures chunks == SemanticChunks(text, target)
  {
    if text == [] {
      return [];
    }
    var t := CleanText(text);
    var paragraphs := SplitParagraphs(t);
    chunks := AccumulateParagraphs(paragraphs, target);
  }

  /**
   * The two nested loops of `chunk_text`: for each paragraph, for each of its sentences, one
   * `Step`; then the non-blank remainder.
   */
  method AccumulateParagraphs(paragraphs: seq<string>, target: int) returns (chunks: seq<string>)
    ensures chunks == Finish(Fold(AllSentences(paragraphs), target))
  {
    chunks := [];
    var current := "";
    for i := 0 to |paragraphs|
      invariant Acc(chunks, current) == Fold(AllSentences(paragraphs[..i]), target)
    {
      var sentences := SplitSentences(paragraphs[i]);
      ghost var before := AllSentences(paragraphs[..i]);
      AppendTakeNone(before, sentences);
      for j := 0 to |sentences|
        invariant Acc(chunks, current) == Fold(before + sentences[..j], target)
      {
        var sentence := sentences[j];
        FoldSnoc(before + sentences[..j], sentence, target);
        AppendTakeSnoc(before, sentences, j);
        chunks, current := AddSentence(chunks, current, sentence, target);
      }
      TakeAll(sentences);
      AllSentencesSnoc(paragraphs, i);
    }
    TakeAll(paragraphs);
    if Strip(current) != [] {
      chunks := chunks + [Strip(current)];
    }
  }

  // ---------------------------------------------------------------------------
  // What semantic chunking promises
  // ---------------------------------------------------------------------------

  /**
   * A chunk is within the maximum 2 * target, or is one sentence of u on its own, or is a
   * remainder shorter than the minimum target // 2 followed by a space and one sentence of u
   * (the force-flush branch).
   */
  ghost predicate Bounded(c: string, u: seq<string>, target: int) {
    || |c| <= target * 2
    || c in u
    || exists k :: 0 < k < |c| && k < target / 2 && c[k] == ' ' && c[k + 1..] in u
  }

  /** An emitted chunk: non-empty, stripped, `Bounded` and at least the minimum target // 2 long. */
  ghost predicate ChunkOk(c: string, u: seq<string>, target: int) {
    c != [] && Trimmed(c) && Bounded(c, u, target) && |c| >= target / 2
  }

  /** The chunk under construction: stripped, and shorter than the target or a single sentence. */
  ghost predicate CurrentOk(c: string, u: seq<string>, target: int) {
    Trimmed(c) && (|c| < target || c in u)
  }

  /** What holds of the loop state between sentences. */
  ghost predicate Inv(a: Acc, u: seq<string>, target: int) {
    && (forall c :: c in a.chunks ==> ChunkOk(c, u, target))
    && CurrentOk(a.current, u, target)
  }

  /** The text the state stands for: the emitted chunks followed by the current one, if any. */
  function Pending(a: Acc): seq<string> {
    a.chunks + (if a.current != [] then [a.current] else [])
  }

  /** Two stripped non-empty pieces joined by a space are stripped. */
  lemma TrimmedJoin(c: string, x: string)
    requires c != [] && x != [] && Trimmed(c) && Trimmed(x)
    ensures Trimmed(c + " " + x) && (c + " " + x)[|c|] == ' ' && (c + " " + x)[|c| + 1..] == x
  {
  }

  /** With a target of at least 2 every step keeps `Inv`. */
  lemma StepInv(a: Acc, x: string, u: seq<string>, target: int)
    requires target >= 2 && Inv(a, u, target)
    requires x != [] && Trimmed(x) && x in u
    ensures Inv(Step(a, x, target), u, target)
  {
    var potential := Potential(a.current, x);
    if |potential| > target * 2 {
      if |a.current| >= target / 2 {
        StepInvFlush(a, x, u, target);
      } else {
        StepInvForce(a, x, u, target);
      }
    } else if |potential| >= target {
      StepInvEmit(a, x, u, target);
    } else {
      StepStripped(a, x, target);
      assert Step(a, x, target) == Acc(a.chunks, potential);
    }
  }

  /** A force flush emits the current chunk, which is at least the minimum, and keeps the sentence. */
  lemma StepInvFlush(a: Acc, x: string, u: seq<string>, target: int)
    requires target >= 2 && Inv(a, u, target)
    requires x != [] && Trimmed(x) && x in u
    requires |Potential(a.current, x)| > target * 2 && |a.current| >= target / 2
    ensures Inv(Step(a, x, target), u, target)
  {
    var c := a.current;
    StepStripped(a, x, target);
    assert Step(a, x, target) == Acc(a.chunks + [c], x);
    assert ChunkOk(c, u, target);
    EmitKeeps(a, c, x, u, target);
  }

  /** When the current chunk is below the minimum, the oversized potential chunk is emitted whole. */
  lemma StepInvForce(a: Acc, x: string, u: seq<string>, target: int)
    requires target >= 2 && Inv(a, u, target)
    requires x != [] && Trimmed(x) && x in u
    requires |Potential(a.current, x)| > target * 2 && |a.current| < target / 2
    ensures Inv(Step(a, x, target), u, target)
  {
    var c := a.current;
    var potential := Potential(c, x);
    StepStripped(a, x, target);
    assert Step(a, x, target) == Acc(a.chunks + [potential], []);
    assert Bounded(potential, u, target) by {
      if c != [] {
        assert potential[|c|] == ' ' && potential[|c| + 1..] == x;
      }
    }
    EmitKeeps(a, potential, [], u, target);
  }

  /** A potential chunk between the target and the maximum is emitted. */
  lemma StepInvEmit(a: Acc, x: string, u: seq<string>, target: int)
    requires target >= 2 && Inv(a, u, target)
    requires x != [] && Trimmed(x) && x in u
    requires target <= |Potential(a.current, x)| <= target * 2
    ensures Inv(Step(a, x, target), u, target)
  {
    var potential := Potential(a.current, x);
    StepStripped(a, x, target);
    assert Step(a, x, target) == Acc(a.chunks + [potential], []);
    EmitKeeps(a, potential, [], u, target);
  }

  /** Emitting a chunk that meets the chunk conditions, with a new current chunk that meets its own, keeps `Inv`. */
  lemma EmitKeeps(a: Acc, c: string, next: string, u: seq<string>, target: int)
    requires Inv(a, u, target) && ChunkOk(c, u, target) && CurrentOk(next, u, target)
    ensures Inv(Acc(a.chunks + [c], next), u, target)
  {
  }

  /** On stripped pieces a step strips nothing: the potential chunk is stripped and is the sentence after a space. */
  lemma StepStripped(a: Acc, x: string, target: int)
    requires Trimmed(a.current) && x != [] && Trimmed(x)
    ensures var c, p := a.current, Potential(a.current, x);
            && p != [] && Trimmed(p)
            && (c == [] ==> p == x)
            && (c != [] ==> p[|c|] == ' ' && p[|c| + 1..] == x)
            && Step(a, x, target)
               == if |p| > target * 2 then
                    (if |c| >= target / 2 then Acc(a.chunks + [c], x) else Acc(a.chunks + [p], []))
                  else if |p| >= target then Acc(a.chunks + [p], [])
                  else Acc(a.chunks, p)
  {
    var c := a.current;
    var potential := Potential(c, x);
    if c != [] {
      TrimmedJoin(c, x);
    }
    StripTrimmed(c);
    StripTrimmed(potential);
  }

  /** With an empty current chunk a step leaves the sentence pending, as a chunk or as the current one. */
  lemma StepFromEmpty(a: Acc, x: string, target: int)
    requires target >= 2 && a.current == [] && x != [] && Trimmed(x)
    ensures Pending(Step(a, x, target)) == a.chunks + [x]
  {
    StripTrimmed(x);
    var b := Step(a, x, target);
    if b.current == [] {
      assert b.chunks == a.chunks + [x];
      AppendEmpty(b.chunks);
    } else {
      assert b == Acc(a.chunks, x);
    }
  }

  /** A force flush emits the current chunk and starts the next one with the sentence. */
  lemma StepFlush(a: Acc, x: string, target: int)
    requires a.current != [] && x != []
    requires |Potential(a.current, x)| > target * 2 && |a.current| >= target / 2
    requires Trimmed(a.current)
    ensures Pending(Step(a, x, target)) == (a.chunks + [a.current]) + [x]
  {
    StripTrimmed(a.current);
  }

  /** Otherwise the sentence joins the current chunk, which is emitted or kept. */
  lemma StepExtend(a: Acc, x: string, target: int)
    requires a.current != []
    requires !(|Potential(a.current, x)| > target * 2 && |a.current| >= target / 2)
    requires Trimmed(a.current) && x != [] && Trimmed(x)
    ensures Pending(Step(a, x, target)) == a.chunks + [a.current + " " + x]
  {
    var potential := a.current + " " + x;
    TrimmedJoin(a.current, x);
    StripTrimmed(potential);
    var b := Step(a, x, target);
    if b.current == [] {
      assert b.chunks == a.chunks + [potential];
      AppendEmpty(b.chunks);
    } else {
      assert b == Acc(a.chunks, potential);
    }
  }

  /** Extending the last piece by a space and x extends the joined text by a space and x. */
  lemma JoinExtendLast(cs: seq<string>, c: string, x: string)
    ensures Join(cs + [c + " " + x], " ") == Join(cs + [c], " ") + " " + x
  {
    JoinSnocAny(cs, c + " " + x, " ");
    JoinSnocAny(cs, c, " ");
    if cs != [] {
      var j := Join(cs, " ");
      AppendAssoc(j + " ", c, " " + x);
      AppendAssoc(j + " " + c, " ", x);
      AppendAssoc(c, " ", x);
    }
  }

  /** With a target of at least 2 every step extends the pending text by a space and the sentence. */
  lemma StepPending(a: Acc, x: string, target: int)
    requires target >= 2 && Trimmed(a.current)
    requires x != [] && Trimmed(x)
    ensures Pending(Step(a, x, target)) != []
    ensures Join(Pending(Step(a, x, target)), " ")
            == if Pending(a) == [] then x else Join(Pending(a), " ") + " " + x
  {
    var cs, c := a.chunks, a.current;
    if c == [] {
      StepFromEmpty(a, x, target);
      AppendEmpty(cs);
      JoinSnocAny(cs, x, " ");
    } else {
      assert Pending(a) == cs + [c];
      if |Potential(c, x)| > target * 2 && |c| >= target / 2 {
        StepFlush(a, x, target);
        JoinSnocAny(cs + [c], x, " ");
      } else {
        StepExtend(a, x, target);
        JoinExtendLast(cs, c, x);
      }
    }
  }

  /**
   * With a target of at least 2, folding stripped non-empty sentences of u keeps `Inv`,
   * and the pending text joins back to the sentences joined by single spaces.
   */
  lemma {:induction false} FoldFacts(ss: seq<string>, u: seq<string>, target: int)
    requires target >= 2
    requires forall k :: 0 <= k < |ss| ==> ss[k] != [] && Trimmed(ss[k]) && ss[k] in u
    ensures Inv(Fold(ss, target), u, target)
    ensures Join(Pending(Fold(ss, target)), " ") == Join(ss, " ")
    ensures Pending(Fold(ss, target)) == [] <==> ss == []
  {
    if ss != [] {
      var init, x := ss[..|ss| - 1], ss[|ss| - 1];
      FoldFacts(init, u, target);
      var a := Fold(init, target);
      StepInv(a, x, u, target);
      StepPending(a, x, target);
      TakeLast(ss);
      JoinSnocAny(init, x, " ");
    } else {
      AppendEmpty<string>([]);
    }
  }

  /** A stripped current chunk is emitted by `Finish` exactly when it is non-empty. */
  lemma FinishPending(a: Acc)
    requires Trimmed(a.current)
    ensures Finish(a) == Pending(a)
  {
    StripTrimmed(a.current);
  }

  /** The sentences of one paragraph. */
  lemma AllSentencesOne(p: string)
    ensures AllSentences([p]) == SplitSentences(p)
  {
    assert [p][..0] == [];
  }

  /** The sentences of text are the sentences of its cleaned form, which join back into it. */
  lemma SentencesJoin(text: string)
    ensures Join(SentencesOf(text), " ") == CleanText(text)
  {
    var t := CleanText(text);
    ParagraphsOfCleanText(text);
    if t != [] {
      AllSentencesOne(t);
      SentencesOfNormalized(t);
    }
  }

  /**
   * With a target of at least 2 every sentence lands in exactly one chunk, in order: joining
   * the chunks with single spaces reproduces the cleaned text.
   */
  lemma SemanticCoverage(text: string, target: int)
    requires target >= 2
    ensures Join(SemanticChunks(text, target), " ") == CleanText(text)
  {
    if text != [] {
      var ss := SentencesOf(text);
      FoldFacts(ss, ss, target);
      FinishPending(Fold(ss, target));
      SentencesJoin(text);
    }
  }

  /**
   * With a target of at least 2 every chunk is non-empty, stripped and `Bounded`, and every
   * chunk but the last is at least the minimum target // 2 long.
   */
  lemma SemanticChunkBounds(text: string, target: int)
    requires target >= 2
    ensures var cs, u := SemanticChunks(text, target), SentencesOf(text);
            && (forall c :: c in cs ==> c != [] && Trimmed(c) && Bounded(c, u, target))
            && (forall k :: 0 <= k < |cs| - 1 ==> |cs[k]| >= target / 2)
  {
    if text != [] {
      var u := SentencesOf(text);
      FoldFacts(u, u, target);
      FinishInv(Fold(u, target), u, target);
    }
  }

  /** What `Inv` says of the state, `Finish` says of the chunks it returns. */
  lemma FinishInv(a: Acc, u: seq<string>, target: int)
    requires target >= 2 && Inv(a, u, target)
    ensures var cs := Finish(a);
            && (forall c :: c in cs ==> c != [] && Trimmed(c) && Bounded(c, u, target))
            && (forall k :: 0 <= k < |cs| - 1 ==> |cs[k]| >= target / 2)
  {
    FinishChunks(a, u, target);
    FinishMinimum(a, u, target);
  }

  /** Every chunk `Finish` returns is non-empty, stripped and `Bounded`. */
  lemma FinishChunks(a: Acc, u: seq<string>, target: int)
    requires target >= 2 && Inv(a, u, target)
    ensures forall c :: c in Finish(a) ==> c != [] && Trimmed(c) && Bounded(c, u, target)
  {
    FinishPending(a);
    PendingChunks(a, u, target);
  }

  /** Every pending piece is non-empty, stripped and `Bounded`. */
  lemma PendingChunks(a: Acc, u: seq<string>, target: int)
    requires target >= 2 && Inv(a, u, target)
    ensures forall c :: c in Pending(a) ==> c != [] && Trimmed(c) && Bounded(c, u, target)
  {
    forall c | c in Pending(a)
      ensures c != [] && Trimmed(c) && Bounded(c, u, target)
    {
      if c in a.chunks {
        assert ChunkOk(c, u, target);
      } else {
        PendingCurrent(a, c);
      }
    }
  }

  /** What is pending besides the emitted chunks is the non-empty current chunk. */
  lemma PendingCurrent(a: Acc, c: string)
    requires c in Pending(a) && c !in a.chunks
    ensures c == a.current && c != []
  {
    if a.current == [] {
      AppendEmpty(a.chunks);
    } else {
      assert c in [a.current];
    }
  }

  /** Every chunk `Finish` returns but the last meets the minimum. */
  lemma FinishMinimum(a: Acc, u: seq<string>, target: int)
    requires target >= 2 && Inv(a, u, target)
    ensures var cs := Finish(a); forall k :: 0 <= k < |cs| - 1 ==> |cs[k]| >= target / 2
  {
    FinishPending(a);
    PendingMinimum(a, u, target);
  }

  /** Every pending piece but the last is an emitted chunk, so it meets the minimum. */
  lemma PendingMinimum(a: Acc, u: seq<string>, target: int)
    requires target >= 2 && Inv(a, u, target)
    ensures var ps := Pending(a); forall k :: 0 <= k < |ps| - 1 ==> |ps[k]| >= target / 2
  {
    var ps := Pending(a);
    forall k | 0 <= k < |ps| - 1
      ensures |ps[k]| >= target / 2
    {
      assert ps[k] == a.chunks[k];
      assert ChunkOk(a.chunks[k], u, target);
    }
  }

  /** Empty or blank text has no sentences and so no chunks, whatever the target. */
  lemma SemanticBlank(text: string, target: int)
    requires AllSpace(text)
    ensures SemanticChunks(text, target) == []
  {
    if text != [] {
      ParagraphsOfCleanText(text);
      assert SentencesOf(text) == [];
      NoSentencesNoChunks(target);
    }
  }

  /** No sentences give no chunks. */
  lemma NoSentencesNoChunks(target: int)
    ensures Finish(Fold([], target)) == []
  {
    StripTrimmed([]);
  }

  /** With a target of at least 2 there are no chunks only for empty or blank text. */
  lemma SemanticEmptyIffBlank(text: string, target: int)
    requires target >= 2
    ensures SemanticChunks(text, target) == [] <==> AllSpace(text)
  {
    if AllSpace(text) {
      SemanticBlank(text, target);
    } else {
      SemanticCoverage(text, target);
    }
  }

  /** Emitted chunks are never revised: each step only appends to them. */
  lemma {:induction false} FoldChunksPrefix(ss: seq<string>, k: nat, target: int)
    requires k <= |ss|
    ensures Fold(ss[..k], target).chunks <= Fold(ss, target).chunks
  {
    if k < |ss| {
      var init := ss[..|ss| - 1];
      assert init[..k] == ss[..k];
      FoldChunksPrefix(init, k, target);
    } else {
      TakeAll(ss);
    }
  }

  /**
   * With a target of 1 or less the minimum target // 2 is not positive, so a first sentence
   * longer than twice the target flushes the empty current chunk: the first chunk is "".
   */
  lemma TinyTargetEmptyChunk(text: string, target: int)
    requires target <= 1
    requires var u := SentencesOf(text); u != [] && |u[0]| > target * 2
    ensures var cs := SemanticChunks(text, target); cs != [] && cs[0] == []
  {
    var u := SentencesOf(text);
    SentencesOfEmpty();
    assert text != [];
    TinyFold(u, target);
    FinishFirst(Fold(u, target));
  }

  /** The fold behind `TinyTargetEmptyChunk`: its first emitted chunk is "". */
  lemma TinyFold(u: seq<string>, target: int)
    requires target <= 1 && u != [] && |u[0]| > target * 2
    ensures Fold(u, target).chunks != [] && Fold(u, target).chunks[0] == []
  {
    FoldTinyFirst(u, target);
    FoldChunksPrefix(u, 1, target);
    PrefixFirst(Fold(u[..1], target).chunks, Fold(u, target).chunks);
  }

  /** `Finish` keeps the emitted chunks in front. */
  lemma FinishFirst(a: Acc)
    requires a.chunks != []
    ensures Finish(a) != [] && Finish(a)[0] == a.chunks[0]
  {
  }

  /** The empty text has no sentences. */
  lemma SentencesOfEmpty()
    ensures SentencesOf([]) == []
  {
    ParagraphsOfCleanText([]);
  }

  /** The fold behind `TinyTargetEmptyChunk`: the first step emits the empty current chunk. */
  lemma FoldTinyFirst(u: seq<string>, target: int)
    requires target <= 1 && u != [] && |u[0]| > target * 2
    ensures Fold(u[..1], target).chunks == [[]]
  {
    assert u[..1][..0] == [];
  }

  // ---------------------------------------------------------------------------
  // Strategies and the factory
  // ---------------------------------------------------------------------------

  /** A chunking strategy with its effective parameters, the defaults already applied. */
  datatype Strategy =
    | FixedSize(chunkSize: int, chunkOverlap: int)
    | Semantic(targetChunkSize: int)

  /** The strategy names a request may carry. */
  datatype StrategyChoice = FixedSizeChoice | SemanticChoice {
    /** The wire value of the choice. */
    function Value(): (r: string)
      ensures Lower(r) == r
    {
      match this
      case FixedSizeChoice => "fixed_size"
      case SemanticChoice => "semantic"
    }
  }

  /** The factory's error: the name is neither strategy. */
  datatype ChunkingError = UnknownStrategy(name: string)

  /**
   * `get_chunking_strategy`: picks a strategy by its lower-cased name. The fixed-size
   * strategy replaces a missing or zero size by 500 and a missing or zero overlap by 50;
   * the semantic one replaces a missing or zero size by 500 and ignores the overlap.
   */
  function GetChunkingStrategy(name: string, chunkSize: Option<int>, chunkOverlap: Option<int>)
    : (r: Result<Strategy, ChunkingError>)
    ensures r.Ok? <==> Lower(name) == "fixed_size" || Lower(name) == "semantic"
    ensures r.Err? ==> r.error == UnknownStrategy(name)
    ensures r.Ok? && Lower(name) == "fixed_size" ==>
              && r.value.FixedSize?
              && r.value.chunkSize == OrDefault(chunkSize, Config.DefaultChunkSize)
              && r.value.chunkOverlap == OrDefault(chunkOverlap, Config.DefaultChunkOverlap)
    ensures r.Ok? && Lower(name) == "semantic" ==>
              r.value == Semantic(OrDefault(chunkSize, Config.DefaultChunkSize))
  {
    var key := Lower(name);
    if key == "fixed_size" then
      Ok(FixedSize(OrDefault(chunkSize, Config.DefaultChunkSize), OrDefault(chunkOverlap, Config.DefaultChunkOverlap)))
    else if key == "semantic" then
      Ok(Semantic(OrDefault(chunkSize, Config.DefaultChunkSize)))
    else
      Err(UnknownStrategy(name))
  }

  /** Every choice a request can make names a strategy, and the one it names. */
  lemma ChoiceResolves(c: StrategyChoice, chunkSize: Option<int>, chunkOverlap: Option<int>)
    ensures var r := GetChunkingStrategy(c.Value(), chunkSize, chunkOverlap);
            r.Ok? && (r.value.FixedSize? <==> c == FixedSizeChoice)
  {
  }

  /** The effective sizes are never zero, since both defaults are non-zero. */
  lemma StrategySizesNonZero(name: string, chunkSize: Option<int>, chunkOverlap: Option<int>)
    ensures var r := GetChunkingStrategy(name, chunkSize, chunkOverlap);
            r.Ok? ==> match r.value
                      case FixedSize(size, overlap) => size != 0 && overlap != 0
                      case Semantic(target) => target != 0
  {
  }

  /** Upper- and lower-case spellings of a name pick the same strategy. */
  lemma StrategyCaseInsensitive(name: string, chunkSize: Option<int>, chunkOverlap: Option<int>)
    ensures GetChunkingStrategy(Lower(name), chunkSize, chunkOverlap)
            == match GetChunkingStrategy(name, chunkSize, chunkOverlap)
               case Ok(s) => Ok(s)
               case Err(_) => Err(UnknownStrategy(Lower(name)))
  {
    LowerIdempotent(name);
  }

  /** The chunks a strategy produces for text. */
  function StrategyChunks(s: Strategy, text: string): seq<string> {
    match s
    case FixedSize(size, overlap) => FixedSizeChunks(text, size, overlap)
    case Semantic(target) => SemanticChunks(text, target)
  }

  /** `chunker.chunk_text(text)`: runs the strategy's own chunking. */
  method ChunkText(s: Strategy, text: string) returns (chunks: seq<string>)
    ensures chunks == StrategyChunks(s, text)
  {
    match s
    case FixedSize(size, overlap) =>
      chunks := FixedSizeChunkText(text, size, overlap);
    case Semantic(target) =>
      chunks := SemanticChunkText(text, target);
  }

  /** Whatever the strategy, empty or blank text has no chunks. */
  lemma BlankHasNoChunks(s: Strategy, text: string)
    requires AllSpace(text)
    ensures StrategyChunks(s, text) == []
  {
    match s
    case FixedSize(size, overlap) =>
      assert CleanText(text) == [];
    case Semantic(target) =>
      SemanticBlank(text, target);
  }
}
