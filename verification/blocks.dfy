/**
 Index ranges over the shared list (`SubListDefinition` in the source): a closed interval
 [begin, end] of positions, held as plain offsets and never as a reference into the list.
 */
module Blocks {

  datatype SubList = SubList(begin: int, end: int)

  /** Number of positions in `b` (`endIndex - beginIndex + 1`). */
  function Len(b: SubList): int {
    b.end - b.begin + 1
  }

  /** `b` is non-empty and lies inside the closed interval [lo, hi]. */
  predicate Within(b: SubList, lo: int, hi: int) {
    lo <= b.begin <= b.end <= hi
  }

  /** `b` is non-empty and addresses only positions of a list of length `n`. */
  predicate InList(b: SubList, n: int) {
    Within(b, 0, n - 1)
  }

  predicate Contains(b: SubList, x: int) {
    b.begin <= x <= b.end
  }

  /** The two ranges share no position. */
  predicate Disjoint(a: SubList, b: SubList) {
    a.end < b.begin || b.end < a.begin
  }

  lemma DisjointMeansNoSharedPosition(a: SubList, b: SubList)
    requires Len(a) >= 1 && Len(b) >= 1
    ensures Disjoint(a, b) <==> forall x :: !(Contains(a, x) && Contains(b, x))
  {
    if !Disjoint(a, b) {
      var x := if a.begin < b.begin then b.begin else a.begin;
      assert Contains(a, x) && Contains(b, x);
    }
  }
}
