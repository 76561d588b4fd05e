/** Small shared vocabulary: optional values and duplicate-free sequences. */
module Prelude {
  datatype Option<+T> = None | Some(value: T)

  ghost predicate Distinct<T(!new)>(s: seq<T>) {
    forall i, j :: 0 <= i < j < |s| ==> s[i] != s[j]
  }

  /** A duplicate-free sequence holds each of its elements exactly once. */
  lemma {:induction false} DistinctCounts<T(!new)>(s: seq<T>, x: T)
    requires Distinct(s)
    ensures multiset(s)[x] == if x in s then 1 else 0
  {
    if s != [] {
      var n := |s| - 1;
      assert s == s[..n] + [s[n]];
      DistinctCounts(s[..n], x);
    }
  }
}
