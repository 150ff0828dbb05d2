/** Small vocabulary shared by every part of the model: bytes, options, duplicate-free lists
    and the counting arguments about them. */
module Base {

  newtype byte = x: int | 0 <= x < 256

  datatype Option<+T> = None | Some(value: T)

  predicate NoDuplicates<T(==)>(s: seq<T>) {
    forall i, j :: 0 <= i < j < |s| ==> s[i] != s[j]
  }

  function Elements<T>(s: seq<T>): (r: set<T>) {
    set x | x in s
  }

  /** A duplicate-free list has as many elements as positions. */
  lemma {:induction false} DistinctCount<T>(s: seq<T>)
    requires NoDuplicates(s)
    ensures |Elements(s)| == |s|
  {
    if |s| == 0 {
      assert Elements(s) == {};
    } else {
      var last := |s| - 1;
      DistinctCount(s[..last]);
      assert s == s[..last] + [s[last]];
      assert Elements(s) == Elements(s[..last]) + {s[last]};
    }
  }

  /** Pigeonhole: a subset at least as large as the whole is the whole. */
  lemma SubsetOfSameSize<T>(a: set<T>, b: set<T>)
    requires a <= b && |a| >= |b|
    ensures a == b
  {
    assert b == a + (b - a);
    assert |b| == |a| + |b - a|;
    assert b - a == {};
  }

  lemma SubsetCardinality<T>(a: set<T>, b: set<T>)
    requires a <= b
    ensures |a| <= |b|
  {
    assert b == a + (b - a);
    assert |b| == |a| + |b - a|;
  }

  /** Duplicate-free lists that are subsets of one another in the same size hold the same elements. */
  lemma DistinctListCovers<T>(s: seq<T>, whole: set<T>)
    requires NoDuplicates(s) && Elements(s) <= whole && |s| >= |whole|
    ensures Elements(s) == whole && |s| == |whole|
  {
    DistinctCount(s);
    SubsetCardinality(Elements(s), whole);
    SubsetOfSameSize(Elements(s), whole);
  }
}
