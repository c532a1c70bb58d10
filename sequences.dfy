/** Facts about sequences shared by the classifier, the tables and the aggregate. */
module Sequences {

  /** No element occurs twice (the column index of a data frame, the keys of a dict). */
  predicate Distinct<T(==)>(s: seq<T>) {
    forall i, j :: 0 <= i < j < |s| ==> s[i] != s[j]
  }

  /** `a` is obtained from `b` by deleting elements, keeping the order of the rest. */
  predicate IsSubsequence<T(==)>(a: seq<T>, b: seq<T>)
    decreases |b|
  {
    a == [] || (b != [] && ((a[0] == b[0] && IsSubsequence(a[1..], b[1..])) || IsSubsequence(a, b[1..])))
  }

  /** An element appended to `b` alone may be skipped. */
  lemma {:induction false} SubsequenceAppendRight<T>(a: seq<T>, b: seq<T>, x: T)
    requires IsSubsequence(a, b)
    ensures IsSubsequence(a, b + [x])
    decreases |b|
  {
    if a != [] {
      assert (b + [x])[0] == b[0] && (b + [x])[1..] == b[1..] + [x];
      if a[0] == b[0] && IsSubsequence(a[1..], b[1..]) {
        SubsequenceAppendRight(a[1..], b[1..], x);
      } else {
        SubsequenceAppendRight(a, b[1..], x);
      }
    }
  }

  /** An element appended to both sides keeps the subsequence relation. */
  lemma {:induction false} SubsequenceAppendBoth<T>(a: seq<T>, b: seq<T>, x: T)
    requires IsSubsequence(a, b)
    ensures IsSubsequence(a + [x], b + [x])
    decreases |b|
  {
    if b == [] {
      assert a == [];
      assert IsSubsequence((a + [x])[1..], (b + [x])[1..]);
    } else {
      assert (b + [x])[0] == b[0] && (b + [x])[1..] == b[1..] + [x];
      if a == [] {
        SubsequenceAppendBoth(a, b[1..], x);
      } else {
        assert (a + [x])[0] == a[0] && (a + [x])[1..] == a[1..] + [x];
        if a[0] == b[0] && IsSubsequence(a[1..], b[1..]) {
          SubsequenceAppendBoth(a[1..], b[1..], x);
        } else {
          SubsequenceAppendBoth(a, b[1..], x);
        }
      }
    }
  }
}
