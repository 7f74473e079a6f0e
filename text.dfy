/**
 * The parts of Python's `str` and `re` behaviour the pipeline relies on, over `seq<char>`:
 * whitespace, `strip`, whitespace collapsing, `split` on one character, `join`,
 * `capitalize`/`lower` (ASCII letters only) and `str()` of a non-negative integer.
 */
module Text {
  import opened Slices

  /** `str.isspace()` on one character, which is also what `\s` matches in a `re` str pattern. */
  predicate IsSpace(c: char) {
    || c == ' '
    || '\t' <= c <= '\r'
    || '\U{1c}' <= c <= '\U{1f}'
    || c == '\U{85}'
    || c == '\U{a0}'
    || c == '\U{1680}'
    || '\U{2000}' <= c <= '\U{200a}'
    || c == '\U{2028}'
    || c == '\U{2029}'
    || c == '\U{202f}'
    || c == '\U{205f}'
    || c == '\U{3000}'
  }

  /** Every character is whitespace (vacuously true of the empty string). */
  predicate AllSpace(s: string) {
    forall i :: 0 <= i < |s| ==> IsSpace(s[i])
  }

  /** No whitespace at either end; what `str.strip()` returns. */
  predicate Trimmed(s: string) {
    s == [] || (!IsSpace(s[0]) && !IsSpace(s[|s| - 1]))
  }

  /** The only whitespace is single spaces (as `re.sub(r'\s+', ' ', s)` leaves it). */
  ghost predicate SingleSpaced(s: string) {
    && (forall i :: 0 <= i < |s| && IsSpace(s[i]) ==> s[i] == ' ')
    && (forall i, j :: 0 <= i < j < |s| && j == i + 1 ==> !(IsSpace(s[i]) && IsSpace(s[j])))
  }

  /**
   * Normalised text, as `re.sub(r'\s+', ' ', s).strip()` leaves it: the only
   * whitespace is single spaces standing between two non-space characters.
   */
  ghost predicate Normalized(s: string) {
    SingleSpaced(s) && Trimmed(s)
  }

  /** A prefix of single-spaced text is single-spaced. */
  lemma SingleSpacedPrefix(c: string, e: nat)
    requires SingleSpaced(c) && e <= |c|
    ensures SingleSpaced(c[..e])
  {
    var r := c[..e];
    forall i, j | 0 <= i < j < |r| && j == i + 1
      ensures !(IsSpace(r[i]) && IsSpace(r[j]))
    {
      assert r[i] == c[i] && r[j] == c[j];
    }
  }

  /** A suffix of single-spaced text is single-spaced. */
  lemma SingleSpacedSuffix(c: string, b: nat)
    requires SingleSpaced(c) && b <= |c|
    ensures SingleSpaced(c[b..])
  {
    var r := c[b..];
    forall i, j | 0 <= i < j < |r| && j == i + 1
      ensures !(IsSpace(r[i]) && IsSpace(r[j]))
    {
      assert r[i] == c[b + i] && r[j] == c[b + j];
    }
  }

  /** Single-spaced text that starts with whitespace starts with one space and then a non-space. */
  lemma SingleSpacedHead(t: string)
    requires SingleSpaced(t) && |t| >= 2 && IsSpace(t[0])
    ensures t[0] == ' ' && !IsSpace(t[1])
  {
  }

  /** `str.lstrip()`: drops the leading whitespace and nothing else. */
  function StripLeft(s: string): (r: string)
    ensures |r| <= |s| && r == s[|s| - |r|..]
    ensures r == [] || !IsSpace(r[0])
    ensures AllSpace(s[..|s| - |r|])
  {
    if s != [] && IsSpace(s[0]) then
      var r := StripLeft(s[1..]);
      var m := |s| - 1 - |r|;
      DropDrop(s, m);
      TakeCons(s, m);
      AllSpaceConcat([s[0]], s[1..][..m]);
      r
    else s
  }

  /** `str.rstrip()`: drops the trailing whitespace and nothing else. */
  function StripRight(s: string): (r: string)
    ensures |r| <= |s| && r == s[..|r|]
    ensures r == [] || !IsSpace(r[|r| - 1])
    ensures AllSpace(s[|r|..])
  {
    if s != [] && IsSpace(s[|s| - 1]) then
      var r := StripRight(s[..|s| - 1]);
      TakeOfTake(s, |s| - 1, |r|);
      DropSnoc(s, |r|);
      AllSpaceConcat(s[..|s| - 1][|r|..], [s[|s| - 1]]);
      r
    else
      TakeAll(s);
      s
  }

  /** `str.strip()`: the infix of `s` left once whitespace is removed from both ends. */
  function Strip(s: string): (r: string)
    ensures Trimmed(r)
    ensures |r| <= |s|
    ensures r == [] <==> AllSpace(s)
  {
    var sr := StripRight(s);
    var r := StripLeft(sr);
    StripFacts(s, sr, r);
    r
  }

  lemma StripFacts(s: string, sr: string, r: string)
    requires sr == StripRight(s) && r == StripLeft(sr)
    ensures Trimmed(r)
    ensures r == [] <==> AllSpace(s)
  {
    var k := |sr|;
    if r == [] {
      TakeAll(sr);
      TakeDrop(s, k);
      AllSpaceConcat(sr, s[k..]);
    } else {
      var i := k - |r|;
      assert r[0] == sr[i] == s[i];
      assert r[|r| - 1] == sr[k - 1];
    }
  }

  /** A concatenation is all whitespace exactly when both parts are. */
  lemma AllSpaceConcat(a: string, b: string)
    ensures AllSpace(a + b) <==> AllSpace(a) && AllSpace(b)
  {
    if AllSpace(a) && AllSpace(b) {
      forall i | 0 <= i < |a + b| ensures IsSpace((a + b)[i]) {
        if i >= |a| {
          assert (a + b)[i] == b[i - |a|];
        }
      }
    }
    if AllSpace(a + b) {
      forall i | 0 <= i < |a| ensures IsSpace(a[i]) {
        assert a[i] == (a + b)[i];
      }
      forall i | 0 <= i < |b| ensures IsSpace(b[i]) {
        assert b[i] == (a + b)[|a| + i];
      }
    }
  }

  /** Stripping text that has no whitespace at its ends leaves it as it is. */
  lemma StripTrimmed(s: string)
    requires Trimmed(s)
    ensures Strip(s) == s
  {
  }

  /** `re.sub(r'\s+', ' ', s)`: every maximal run of whitespace becomes a single space. */
  function Collapse(s: string): (r: string)
    ensures r == [] <==> s == []
    ensures r != [] ==> (IsSpace(r[0]) <==> IsSpace(s[0]))
    ensures SingleSpaced(r)
    decreases |s|
  {
    if s == [] then []
    else if IsSpace(s[0]) then
      var r := Collapse(StripLeft(s[1..]));
      SingleSpacedCons(' ', r);
      " " + r
    else
      var r := Collapse(s[1..]);
      SingleSpacedCons(s[0], r);
      [s[0]] + r
  }

  /** A character put before single-spaced text keeps it single-spaced unless it makes a run. */
  lemma SingleSpacedCons(c: char, r: string)
    requires SingleSpaced(r)
    requires IsSpace(c) ==> c == ' ' && (r == [] || !IsSpace(r[0]))
    ensures SingleSpaced([c] + r)
  {
    var q := [c] + r;
    forall i | 0 < i < |q| ensures q[i] == r[i - 1] {
    }
  }

  /** Collapsing whitespace neither creates nor removes a non-space character. */
  lemma {:induction false} CollapseAllSpace(s: string)
    ensures AllSpace(Collapse(s)) <==> AllSpace(s)
    decreases |s|
  {
    if s != [] {
      if IsSpace(s[0]) {
        var t := StripLeft(s[1..]);
        CollapseAllSpace(t);
        var k := |s| - 1 - |t|;
        var run := s[1..][..k];
        ConsDrop(s);
        TakeDrop(s[1..], k);
        AllSpaceConcat([s[0]], s[1..]);
        AllSpaceConcat(run, t);
        AllSpaceConcat(" ", Collapse(t));
      } else {
        assert !IsSpace(Collapse(s)[0]);
      }
    }
  }

  /** `sep.join(xs)`. */
  function Join(xs: seq<string>, sep: string): (r: string)
    ensures xs == [] ==> r == []
    ensures xs != [] ==> |r| >= |xs[0]| && r[..|xs[0]|] == xs[0]
  {
    if xs == [] then []
    else if |xs| == 1 then xs[0]
    else xs[0] + sep + Join(xs[1..], sep)
  }

  /** A join ends with its last piece. */
  lemma {:induction false} JoinEndsWith(xs: seq<string>, sep: string)
    requires xs != []
    ensures var r, last := Join(xs, sep), xs[|xs| - 1]; |r| >= |last| && r[|r| - |last|..] == last
  {
    if |xs| > 1 {
      JoinEndsWith(xs[1..], sep);
    }
  }

  /** Joining one more piece appends the separator and that piece. */
  lemma {:induction false} JoinSnoc(xs: seq<string>, x: string, sep: string)
    requires xs != []
    ensures Join(xs + [x], sep) == Join(xs, sep) + sep + x
  {
    var ys := xs + [x];
    DropAppend(xs, [x]);
    assert ys[0] == xs[0];
    if |xs| > 1 {
      JoinSnoc(xs[1..], x, sep);
      var head, j := xs[0] + sep, Join(xs[1..], sep);
      assert Join(ys, sep) == head + ((j + sep) + x);
      AppendAssoc(head, j + sep, x);
      AppendAssoc(head, j, sep);
    } else {
      assert ys[1..] == [x];
    }
  }

  /** Joining one more piece onto any list of pieces. */
  lemma JoinSnocAny(xs: seq<string>, x: string, sep: string)
    ensures Join(xs + [x], sep) == if xs == [] then x else Join(xs, sep) + sep + x
  {
    if xs == [] {
      assert xs + [x] == [x];
    } else {
      JoinSnoc(xs, x, sep);
    }
  }

  /** Joining a concatenation is joining the two halves and putting one separator between them. */
  lemma {:induction false} JoinAppend(a: seq<string>, b: seq<string>, sep: string)
    requires a != [] && b != []
    ensures Join(a + b, sep) == Join(a, sep) + sep + Join(b, sep)
  {
    if |a| > 1 {
      var ab := a + b;
      DropAppend(a, b);
      JoinAppend(a[1..], b, sep);
      var head, x, y := a[0] + sep, Join(a[1..], sep), Join(b, sep);
      assert ab[0] == a[0];
      assert Join(ab, sep) == head + ((x + sep) + y);
      AppendAssoc(head, x + sep, y);
      AppendAssoc(head, x, sep);
    } else {
      DropAppend(a, b);
    }
  }

  /** `s.split(c)` for a one-character separator: the pieces between the occurrences of `c`. */
  function Split(s: string, c: char): (r: seq<string>)
    ensures |r| >= 1
    ensures forall k :: 0 <= k < |r| ==> c !in r[k]
  {
    if s == [] then [[]]
    else
      var rest := Split(s[1..], c);
      if s[0] == c then [[]] + rest else [[s[0]] + rest[0]] + rest[1..]
  }

  /** Joining the pieces of a split with the separator gives back the original string. */
  lemma {:induction false} JoinSplit(s: string, c: char)
    ensures Join(Split(s, c), [c]) == s
  {
    if s != [] {
      var rest := Split(s[1..], c);
      JoinSplit(s[1..], c);
      if s[0] != c && |rest| > 1 {
        ConsDrop(rest);
      }
    }
  }

  /** A string without the separator splits into itself. */
  lemma {:induction false} SplitNoSeparator(s: string, c: char)
    requires c !in s
    ensures Split(s, c) == [s]
  {
    if s != [] {
      SplitNoSeparator(s[1..], c);
      assert [s[0]] + s[1..] == s;
    }
  }

  /** Splitting at one occurrence of the separator splits the two sides independently. */
  lemma {:induction false} SplitConcat(a: string, b: string, c: char)
    ensures Split(a + [c] + b, c) == Split(a, c) + Split(b, c)
  {
    var s := a + [c] + b;
    if a == [] {
      assert s[1..] == b;
    } else {
      assert s[1..] == a[1..] + [c] + b;
      SplitConcat(a[1..], b, c);
      var front, back := Split(a[1..], c), Split(b, c);
      assert s[0] == a[0];
      if a[0] == c {
        AppendAssoc([[]], front, back);
      } else {
        assert (front + back)[0] == front[0];
        DropAppend(front, back);
        AppendAssoc([[a[0]] + front[0]], front[1..], back);
      }
    }
  }

  /** Splitting a join of separator-free pieces gives back the pieces. */
  lemma {:induction false} SplitJoin(xs: seq<string>, c: char)
    requires xs != []
    requires forall k :: 0 <= k < |xs| ==> c !in xs[k]
    ensures Split(Join(xs, [c]), c) == xs
  {
    if |xs| == 1 {
      SplitNoSeparator(xs[0], c);
    } else {
      SplitJoin(xs[1..], c);
      SplitNoSeparator(xs[0], c);
      SplitConcat(xs[0], Join(xs[1..], [c]), c);
      assert xs[0] + [c] + Join(xs[1..], [c]) == Join(xs, [c]);
    }
  }

  /** `s.startswith(p)`. */
  predicate StartsWith(s: string, p: string) {
    |p| <= |s| && s[..|p|] == p
  }

  /** ASCII lower-casing of one character. */
  function LowerChar(c: char): char {
    if 'A' <= c <= 'Z' then (c as int + 32) as char else c
  }

  /** ASCII upper-casing of one character. */
  function UpperChar(c: char): char {
    if 'a' <= c <= 'z' then (c as int - 32) as char else c
  }

  /** `str.lower()` restricted to ASCII letters. */
  function Lower(s: string): (r: string)
    ensures |r| == |s|
  {
    seq(|s|, i requires 0 <= i < |s| => LowerChar(s[i]))
  }

  /** Lower-casing twice is lower-casing once. */
  lemma LowerIdempotent(s: string)
    ensures Lower(Lower(s)) == Lower(s)
  {
  }

  /** `str.capitalize()` restricted to ASCII letters: first letter upper case, the rest lower case. */
  function Capitalize(s: string): (r: string)
    ensures |r| == |s|
  {
    if s == [] then [] else [UpperChar(s[0])] + Lower(s[1..])
  }

  /** Capitalising twice is capitalising once. */
  lemma CapitalizeIdempotent(s: string)
    ensures Capitalize(Capitalize(s)) == Capitalize(s)
  {
    if s != [] {
      var r := Capitalize(s);
      assert Lower(r[1..]) == r[1..];
    }
  }

  /** The decimal digit for d. */
  function DigitChar(d: nat): char
    requires d < 10
  {
    ('0' as int + d) as char
  }

  /** Every character is a decimal digit. */
  predicate AllDigits(s: string) {
    forall i :: 0 <= i < |s| ==> '0' <= s[i] <= '9'
  }

  /** `str(n)` for a non-negative integer. */
  function NatToString(n: nat): (r: string)
    ensures r != [] && AllDigits(r)
  {
    if n < 10 then [DigitChar(n)] else NatToString(n / 10) + [DigitChar(n % 10)]
  }

  /** `int(s)` on a string of decimal digits. */
  function ParseNat(s: string): nat
    requires AllDigits(s)
  {
    if s == [] then 0 else ParseNat(s[..|s| - 1]) * 10 + (s[|s| - 1] as int - '0' as int)
  }

  /** Reading back the decimal form of n gives n. */
  lemma {:induction false} ParseNatToString(n: nat)
    ensures ParseNat(NatToString(n)) == n
  {
    if n >= 10 {
      var r := NatToString(n);
      assert r[..|r| - 1] == NatToString(n / 10);
      ParseNatToString(n / 10);
    }
  }
}
