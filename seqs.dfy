/** Facts about concatenating and slicing sequences, stated over any element type so that the
    proofs about strings and lists of pages, sheets and records can use them. */
module Seqs {
  /** A sequence is its prefix before `k` followed by the rest, which starts with `s[k]`. */
  lemma SplitAt<T>(s: seq<T>, k: nat)
    requires k < |s|
    ensures s == s[..k] + s[k..]
    ensures s[k..] != [] && s[k..][0] == s[k] && s[k..][1..] == s[k + 1..]
  {
  }

  /** Concatenation regrouped to the right. */
  lemma ConcatAssoc<T>(a: seq<T>, b: seq<T>, c: seq<T>)
    ensures a + b + c == a + (b + c)
  {
  }

  /** Regrouping a concatenation of four pieces. */
  lemma Regroup<T>(a: seq<T>, b: seq<T>, c: seq<T>, d: seq<T>)
    ensures a + (b + c + d) == a + b + c + d
  {
  }

  /** Appending a chain of five pieces is appending them one after another. */
  lemma AppendChain<T>(w: seq<T>, a: seq<T>, b: seq<T>, c: seq<T>, d: seq<T>, e: seq<T>)
    ensures w + (a + b + c + d + e) == w + a + b + c + d + e
  {
  }

  /** A non-empty sequence followed by another is its head followed by the rest. */
  lemma ConsConcat<T>(s: seq<T>, y: seq<T>)
    requires |s| >= 1
    ensures s + y == [s[0]] + (s[1..] + y)
  {
    assert s == [s[0]] + s[1..];
  }

  /** A non-empty sequence followed by two more is its head followed by the rest. */
  lemma ConsAppend<T>(s: seq<T>, x: seq<T>, y: seq<T>)
    requires |s| >= 1
    ensures s + x + y == [s[0]] + (s[1..] + (x + y))
  {
    assert s == [s[0]] + s[1..];
  }

  /** What follows a prefix is the rest. */
  lemma AfterPrefix<T>(x: seq<T>, t: seq<T>)
    ensures (x + t)[|x|..] == t
  {
  }

  /** A non-empty sequence is its head followed by its tail. */
  lemma ConsTail<T>(s: seq<T>)
    requires |s| >= 1
    ensures [s[0]] + s[1..] == s
  {
  }

  /** A non-empty sequence is its front followed by its last element. */
  lemma FrontLast<T>(s: seq<T>)
    requires |s| >= 1
    ensures s[..|s| - 1] + [s[|s| - 1]] == s
  {
  }
}
