/**
 * Facts about sequence concatenation, stated once for any element type so
 * that proofs about labels, lines and branches can cite them.
 */
module Seqs {

  /** Proof helper: concatenation is associative. */
  lemma AppendAssoc<T>(a: seq<T>, b: seq<T>, c: seq<T>)
    ensures (a + b) + c == a + (b + c)
  {
  }

  /** Proof helper. Dropping the last element of a + b, for a non-empty b, drops it from b. */
  lemma InitOfAppend<T>(a: seq<T>, b: seq<T>)
    requires b != []
    ensures (a + b)[..|a + b| - 1] == a + b[..|b| - 1]
    ensures (a + b)[|a + b| - 1] == b[|b| - 1]
  {
  }

  /** Proof helper. The four pieces of a + (b + c) + d sit where they were put. */
  lemma Splice<T>(a: seq<T>, b: seq<T>, c: seq<T>, d: seq<T>)
    ensures var r := a + (b + c) + d;
      && |r| == |a| + |b| + |c| + |d|
      && r[..|a|] == a
      && (forall k :: |a| <= k < |a| + |b| ==> r[k] == b[k - |a|])
      && r[|r| - |d| - |c|..|r| - |d|] == c
      && r[|r| - |d|..] == d
  {
  }

  /** Proof helper. A non-empty sequence is its front followed by its last element. */
  lemma SplitLast<T>(s: seq<T>)
    requires s != []
    ensures s == s[..|s| - 1] + [s[|s| - 1]]
  {
  }

  /** Proof helper. The prefix of length k, with its last element dropped, is the prefix
      of length k - 1. */
  lemma PrefixStep<T>(s: seq<T>, k: nat)
    requires 0 < k <= |s|
    ensures s[..k][..k - 1] == s[..k - 1] && s[..k][k - 1] == s[k - 1]
  {
  }
}
