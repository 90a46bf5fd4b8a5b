/** Order-preserving subsequences, the shape of every row filter in the pipeline. */
module Subsequences {
  /** `a` is obtained from `b` by deleting elements, without reordering the rest. */
  predicate IsSubsequence<T(==)>(a: seq<T>, b: seq<T>)
    decreases |b|
  {
    if a == [] then true
    else if b == [] then false
    else if a[0] == b[0] then IsSubsequence(a[1..], b[1..])
    else IsSubsequence(a, b[1..])
  }

  /** Keeping `x` in front of a subsequence of `b` gives a subsequence of `[x] + b`. */
  lemma KeepHead<T>(x: T, a: seq<T>, b: seq<T>)
    requires IsSubsequence(a, b)
    ensures IsSubsequence([x] + a, [x] + b)
  {
    assert ([x] + a)[1..] == a;
    assert ([x] + b)[1..] == b;
  }

  /** Dropping `x` from the front keeps a subsequence of `b` a subsequence of `[x] + b`. */
  lemma {:induction false} DropHead<T>(x: T, a: seq<T>, b: seq<T>)
    requires IsSubsequence(a, b)
    ensures IsSubsequence(a, [x] + b)
    decreases |b|, 1
  {
    assert ([x] + b)[1..] == b;
    if a != [] && a[0] == x {
      SubsequenceTail(a, b);
    }
  }

  /** The tail of a subsequence is a subsequence too. */
  lemma {:induction false} SubsequenceTail<T>(a: seq<T>, b: seq<T>)
    requires a != [] && IsSubsequence(a, b)
    ensures IsSubsequence(a[1..], b)
    decreases |b|, 0
  {
    assert b == [b[0]] + b[1..];
    if a[0] == b[0] {
      DropHead(b[0], a[1..], b[1..]);
    } else {
      SubsequenceTail(a, b[1..]);
      DropHead(b[0], a[1..], b[1..]);
    }
  }

  /** A subsequence of a subsequence of `c` is a subsequence of `c`. */
  lemma {:induction false} SubsequenceTransitive<T>(a: seq<T>, b: seq<T>, c: seq<T>)
    requires IsSubsequence(a, b) && IsSubsequence(b, c)
    ensures IsSubsequence(a, c)
    decreases |c|
  {
    if a != [] {
      assert c == [c[0]] + c[1..];
      if b[0] == c[0] && a[0] == b[0] {
        SubsequenceTransitive(a[1..], b[1..], c[1..]);
      } else if b[0] == c[0] {
        SubsequenceTransitive(a, b[1..], c[1..]);
        DropHead(c[0], a, c[1..]);
      } else {
        SubsequenceTransitive(a, b, c[1..]);
        DropHead(c[0], a, c[1..]);
      }
    }
  }
}
