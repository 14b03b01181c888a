/** Facts about sequences shared by the reaction lists and the feed. */
module Sequences {

  function Last<T>(s: seq<T>): T
    requires s != []
  {
    s[|s| - 1]
  }

  function Init<T>(s: seq<T>): seq<T>
    requires s != []
  {
    s[..|s| - 1]
  }

  /** `xs` is `ys` with some entries left out, the rest in the same order. */
  predicate IsSubsequence<T(==)>(xs: seq<T>, ys: seq<T>)
    decreases |ys|
  {
    xs == [] ||
    (ys != [] &&
     ((Last(xs) == Last(ys) && IsSubsequence(Init(xs), Init(ys))) || IsSubsequence(xs, Init(ys))))
  }

  /** No entry occurs twice. */
  predicate NoDuplicates<T(==)>(s: seq<T>) {
    forall i, j :: 0 <= i < j < |s| ==> s[i] != s[j]
  }

  /** A subsequence stays one when an entry is appended to the sequence, and
      appending the same entry to both keeps the relation. */
  lemma SubsequenceSnoc<T>(xs: seq<T>, ys: seq<T>, a: T)
    requires IsSubsequence(xs, ys)
    ensures IsSubsequence(xs, ys + [a])
    ensures IsSubsequence(xs + [a], ys + [a])
  {
  }

  /** A subsequence stays one when an entry is put in front of the sequence, and
      putting the same entry in front of both keeps the relation. */
  lemma {:induction false} SubsequencePrepend<T>(xs: seq<T>, ys: seq<T>, a: T)
    requires IsSubsequence(xs, ys)
    ensures IsSubsequence(xs, [a] + ys)
    ensures IsSubsequence([a] + xs, [a] + ys)
    decreases |ys|
  {
    if ys == [] {
      assert xs == [];
      assert Init([a]) == [] && Last([a]) == a;
    } else {
      assert Last([a] + ys) == Last(ys) && Init([a] + ys) == [a] + Init(ys);
      if xs == [] {
        SubsequencePrepend(xs, Init(ys), a);
        assert [a] + xs == [a];
      } else {
        assert Last([a] + xs) == Last(xs) && Init([a] + xs) == [a] + Init(xs);
        if Last(xs) == Last(ys) && IsSubsequence(Init(xs), Init(ys)) {
          SubsequencePrepend(Init(xs), Init(ys), a);
        } else {
          SubsequencePrepend(xs, Init(ys), a);
        }
      }
    }
  }
}
