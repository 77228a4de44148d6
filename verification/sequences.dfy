/** Facts about cutting and joining sequences, kept apart so that the proofs
    that use them do not redo sequence extensionality among other facts. */
module Sequences {

  /** Cutting a sequence around its `i`-th element. */
  lemma SplitAt<T>(s: seq<T>, i: nat)
    requires i < |s|
    ensures s[..i + 1] == s[..i] + [s[i]]
    ensures s[..i + 1] + s[i + 1..] == s
  {
  }

  /** Taking the last element off a concatenation. */
  lemma SplitLast<T>(a: seq<T>, b: seq<T>)
    requires |b| > 0
    ensures b == b[..|b| - 1] + [b[|b| - 1]]
    ensures a + b == (a + b[..|b| - 1]) + [b[|b| - 1]]
  {
  }
}
