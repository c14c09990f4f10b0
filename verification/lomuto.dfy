/**
 The sequential `partition` (a Lomuto partition against a pivot value) and the reference
 definition of where any partition of a range must put its boundary: after the elements
 below the pivot, of which there are as many as the range holds.
 */
module Lomuto {
  import opened Lists

  /** The number of elements of `q` strictly below the pivot. */
  function CountBelow(q: seq<int>, pivot: int): (n: nat)
    ensures n <= |q|
  {
    if |q| == 0 then 0
    else (if q[0] < pivot then 1 else 0) + CountBelow(q[1..], pivot)
  }

  lemma {:induction false} CountBelowAppend(a: seq<int>, b: seq<int>, pivot: int)
    ensures CountBelow(a + b, pivot) == CountBelow(a, pivot) + CountBelow(b, pivot)
    decreases |a|
  {
    if |a| == 0 {
      assert a + b == b;
    } else {
      assert (a + b)[1..] == a[1..] + b;
      CountBelowAppend(a[1..], b, pivot);
    }
  }

  /** The count depends only on which elements there are, not on their order. */
  lemma {:induction false} CountBelowOfPermutation(a: seq<int>, b: seq<int>, pivot: int)
    requires multiset(a) == multiset(b)
    ensures CountBelow(a, pivot) == CountBelow(b, pivot)
    decreases |a|
  {
    if |a| > 0 {
      assert a[0] in multiset(b);
      var k :| 0 <= k < |b| && b[k] == a[0];
      var b' := b[..k] + b[k + 1..];
      assert b == b[..k] + [b[k]] + b[k + 1..];
      assert a == [a[0]] + a[1..];
      calc {
        multiset(a[1..]);
        multiset(a) - multiset{a[0]};
        multiset(b) - multiset{b[k]};
        multiset(b[..k]) + multiset(b[k + 1..]);
        multiset(b');
      }
      CountBelowOfPermutation(a[1..], b', pivot);
      CountBelowAppend(b[..k] + [b[k]], b[k + 1..], pivot);
      CountBelowAppend(b[..k], [b[k]], pivot);
      CountBelowAppend(b[..k], b[k + 1..], pivot);
    }
  }

  /** A slice wholly below the pivot counts all its elements; one wholly at or above, none. */
  lemma {:induction false} CountBelowOfClassified(q: seq<int>, pivot: int)
    ensures (forall k :: 0 <= k < |q| ==> q[k] < pivot) ==> CountBelow(q, pivot) == |q|
    ensures (forall k :: 0 <= k < |q| ==> q[k] >= pivot) ==> CountBelow(q, pivot) == 0
    decreases |q|
  {
    if |q| > 0 {
      CountBelowOfClassified(q[1..], pivot);
    }
  }

  /**
   Any rearrangement of s[lo..hi) that leaves the elements below the pivot in front of the
   others has its boundary at lo plus the number of elements of s[lo..hi) below the pivot:
   the boundary of a partition is unique.
   */
  lemma BoundaryIsCount(s: seq<int>, t: seq<int>, lo: int, m: int, hi: int, pivot: int)
    requires 0 <= lo <= m <= hi <= |s|
    requires Permuted(s, t, lo, hi)
    requires Below(t, lo, m, pivot) && AtLeast(t, m, hi, pivot)
    ensures m == lo + CountBelow(s[lo..hi], pivot)
  {
    PermutedSlice(s, t, lo, hi);
    CountBelowOfPermutation(s[lo..hi], t[lo..hi], pivot);
    assert t[lo..hi] == t[lo..m] + t[m..hi];
    CountBelowAppend(t[lo..m], t[m..hi], pivot);
    CountBelowOfClassified(t[lo..m], pivot);
    CountBelowOfClassified(t[m..hi], pivot);
  }

  /**
   The loop of `partition` from position i, with the store index `store`: s[lo..store) is
   below the pivot and s[store..i) is not. Each element below the pivot is swapped to the
   store index, which then advances.
   */
  function Scan(s: seq<int>, lo: int, right: int, pivot: int, store: int, i: int): (r: (seq<int>, int))
    requires 0 <= lo <= store <= i && right < |s|
    requires i <= right + 1 || store == i
    requires Below(s, lo, store, pivot) && AtLeast(s, store, i, pivot)
    ensures Permuted(s, r.0, store, right + 1)
    ensures store <= r.1 && (r.1 <= right + 1 || r.1 == store)
    ensures Below(r.0, lo, r.1, pivot) && AtLeast(r.0, r.1, right + 1, pivot)
    decreases right + 1 - i
  {
    if i > right then (s, store)
    else if s[i] < pivot then Scan(Swap(s, i, store), lo, right, pivot, store + 1, i + 1)
    else Scan(s, lo, right, pivot, store, i + 1)
  }

  /**
   `partition`: rearranges list[left..right] so that the elements below the pivot come
   first, and returns the index of the first element that is not below it (right + 1 when
   there is none). A range with left > right is left alone and `left` returned.
   */
  function Partition(s: seq<int>, left: int, right: int, pivot: int): (r: (seq<int>, int))
    requires 0 <= left && right < |s|
    ensures Permuted(s, r.0, left, right + 1)
    ensures left <= r.1 && (r.1 <= right + 1 || r.1 == left)
    ensures Below(r.0, left, r.1, pivot) && AtLeast(r.0, r.1, right + 1, pivot)
  {
    Scan(s, left, right, pivot, left, left)
  }

  /** The boundary `partition` returns is left plus the number of elements below the pivot. */
  lemma PartitionBoundary(s: seq<int>, left: int, right: int, pivot: int)
    requires 0 <= left <= right + 1 <= |s|
    ensures Partition(s, left, right, pivot).1 == left + CountBelow(s[left..right + 1], pivot)
  {
    var r := Partition(s, left, right, pivot);
    BoundaryIsCount(s, r.0, left, r.1, right + 1, pivot);
  }
}
