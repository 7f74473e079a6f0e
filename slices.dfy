/** Python's slice syntax `s[i:j]` on sequences, with negative indices and clamping. */
module Slices {

  /** The position a slice bound `i` denotes in a sequence of length `n`. */
  function Bound(i: int, n: nat): (k: nat)
    ensures k <= n
  {
    if i < 0 then (if n + i < 0 then 0 else n + i)
    else if i > n then n
    else i
  }

  /** `s[i:j]`. */
  function Slice<T>(s: seq<T>, i: int, j: int): (r: seq<T>)
    ensures |r| <= |s|
    ensures |r| <= Bound(j, |s|)
  {
    var a, b := Bound(i, |s|), Bound(j, |s|);
    if a < b then s[a..b] else []
  }

  /** `s[-n:]` for n > 0 is the last min(n, |s|) elements. */
  lemma SliceLast<T>(s: seq<T>, n: int)
    requires n > 0
    ensures var m := if n < |s| then n else |s|;
            Slice(s, -n, |s|) == s[|s| - m..] && |Slice(s, -n, |s|)| == m
  {
  }

  /** `s[-n:]` for n < 0 drops the first -n elements. */
  lemma SliceDropFront<T>(s: seq<T>, n: int)
    requires n < 0
    ensures Slice(s, -n, |s|) == if -n < |s| then s[-n..] else []
  {
  }

  /** Both cases of `s[-n:]` for a non-zero n. */
  lemma SliceLastAny<T>(s: seq<T>, n: int)
    requires n != 0
    ensures n > 0 ==> var m := if n < |s| then n else |s|; Slice(s, -n, |s|) == s[|s| - m..]
    ensures n < 0 ==> Slice(s, -n, |s|) == if -n < |s| then s[-n..] else []
  {
    if n > 0 {
      SliceLast(s, n);
    } else {
      SliceDropFront(s, n);
    }
  }

  /** `s[0:j]` for j >= 0 is the first min(j, |s|) elements. */
  lemma SlicePrefix<T>(s: seq<T>, j: int)
    requires j >= 0
    ensures Slice(s, 0, j) == if j < |s| then s[..j] else s
  {
  }

  /** Cutting a sequence of at most j elements at j changes nothing. */
  lemma SliceShort<T>(s: seq<T>, j: int)
    requires |s| <= j
    ensures Slice(s, 0, j) == s
  {
  }

  /** `s[0:]` is the whole of `s`. */
  lemma SliceAll<T>(s: seq<T>)
    ensures Slice(s, 0, |s|) == s
  {
  }

  /** A slice between two non-negative bounds holds at most j - i elements. */
  lemma SliceLength<T>(s: seq<T>, i: int, j: int)
    requires 0 <= i <= j
    ensures |Slice(s, i, j)| <= j - i
  {
  }

  // Sequence identities stated once for any element type, so that they are proved without
  // looking inside the elements.

  lemma AppendEmpty<T>(a: seq<T>)
    ensures a + [] == a
  {
  }

  lemma TakeAll<T>(a: seq<T>)
    ensures a[..|a|] == a && a[0..] == a
  {
  }

  lemma TakeSnoc<T>(a: seq<T>, x: T)
    ensures (a + [x])[..|a|] == a
  {
  }

  lemma TakeTake<T>(a: seq<T>, i: nat)
    requires i < |a|
    ensures a[..i + 1][..i] == a[..i]
  {
  }

  lemma AppendTakeSnoc<T>(a: seq<T>, b: seq<T>, j: nat)
    requires j < |b|
    ensures a + b[..j + 1] == (a + b[..j]) + [b[j]]
  {
  }

  lemma AppendTakeNone<T>(a: seq<T>, b: seq<T>)
    ensures a + b[..0] == a
  {
  }

  lemma AppendAssoc<T>(a: seq<T>, b: seq<T>, c: seq<T>)
    ensures a + (b + c) == (a + b) + c
  {
  }

  lemma AppendPair<T>(a: seq<T>, x: T, y: T)
    ensures (a + [x]) + [y] == a + [x, y]
  {
  }

  lemma PrefixFirst<T>(a: seq<T>, b: seq<T>)
    requires a <= b && a != []
    ensures b != [] && b[0] == a[0]
  {
  }

  lemma DropDrop<T>(a: seq<T>, j: nat)
    requires j < |a|
    ensures a[1..][j..] == a[j + 1..]
  {
  }

  lemma TakeCons<T>(a: seq<T>, j: nat)
    requires j < |a|
    ensures a[..j + 1] == [a[0]] + a[1..][..j]
  {
  }

  lemma TakeOfTake<T>(a: seq<T>, i: nat, j: nat)
    requires j <= i <= |a|
    ensures a[..i][..j] == a[..j]
  {
  }

  lemma DropSnoc<T>(a: seq<T>, j: nat)
    requires j < |a|
    ensures a[j..] == a[..|a| - 1][j..] + [a[|a| - 1]]
  {
  }

  lemma DropAppend<T>(a: seq<T>, b: seq<T>)
    requires a != []
    ensures (a + b)[1..] == a[1..] + b
  {
  }

  lemma ConsDrop<T>(a: seq<T>)
    requires a != []
    ensures a == [a[0]] + a[1..]
  {
  }

  lemma TakeDrop<T>(a: seq<T>, k: nat)
    requires k <= |a|
    ensures a[..k] + a[k..] == a
  {
  }

  lemma TakeLast<T>(a: seq<T>)
    requires a != []
    ensures a == a[..|a| - 1] + [a[|a| - 1]]
  {
  }
}
