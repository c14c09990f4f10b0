/**
 Operations on the list being partitioned, modelled as an immutable `seq<int>` that every
 operation takes and returns: element swaps, the source's `swapBlock` closure with Go `copy`
 semantics, and the predicates used to state classification, framing and permutation.
 */
module Lists {
  import opened Blocks

  function Min(a: int, b: int): int {
    if a <= b then a else b
  }

  /** Go's `list[a], list[b] = list[b], list[a]`. */
  function Swap(s: seq<int>, a: int, b: int): (r: seq<int>)
    requires 0 <= a < |s| && 0 <= b < |s|
    ensures |r| == |s| && r[a] == s[b] && r[b] == s[a]
    ensures forall k :: 0 <= k < |s| && k != a && k != b ==> r[k] == s[k]
    ensures multiset(r) == multiset(s)
  {
    s[a := s[b]][b := s[a]]
  }

  /** Every element of s[lo..hi) is strictly below the pivot. */
  predicate Below(s: seq<int>, lo: int, hi: int, pivot: int) {
    forall k :: lo <= k < hi ==> 0 <= k < |s| && s[k] < pivot
  }

  /** Every element of s[lo..hi) is at least the pivot. */
  predicate AtLeast(s: seq<int>, lo: int, hi: int, pivot: int) {
    forall k :: lo <= k < hi ==> 0 <= k < |s| && s[k] >= pivot
  }

  /** `s` and `t` have the same length and agree everywhere outside [lo, hi). */
  predicate SameOutside(s: seq<int>, t: seq<int>, lo: int, hi: int) {
    |s| == |t| && forall k :: 0 <= k < |s| && (k < lo || hi <= k) ==> s[k] == t[k]
  }

  /** `t` is a rearrangement of `s` that leaves every position outside [lo, hi) untouched. */
  predicate Permuted(s: seq<int>, t: seq<int>, lo: int, hi: int) {
    SameOutside(s, t, lo, hi) && multiset(s) == multiset(t)
  }

  /** A rearrangement confined to [lo, hi) rearranges the slice s[lo..hi) itself. */
  lemma PermutedSlice(s: seq<int>, t: seq<int>, lo: int, hi: int)
    requires 0 <= lo <= hi <= |s|
    requires Permuted(s, t, lo, hi)
    ensures multiset(s[lo..hi]) == multiset(t[lo..hi])
  {
    assert s[..lo] == t[..lo];
    assert s[hi..] == t[hi..];
    MultisetSplit(s, lo, hi);
    MultisetSplit(t, lo, hi);
    forall v
      ensures multiset(s[lo..hi])[v] == multiset(t[lo..hi])[v]
    {
      assert multiset(s)[v] == multiset(s[..lo])[v] + multiset(s[lo..hi])[v] + multiset(s[hi..])[v];
    }
  }

  lemma MultisetSplit(s: seq<int>, lo: int, hi: int)
    requires 0 <= lo <= hi <= |s|
    ensures multiset(s) == multiset(s[..lo]) + multiset(s[lo..hi]) + multiset(s[hi..])
  {
    assert s == s[..lo] + s[lo..hi] + s[hi..];
  }

  lemma PermutedTrans(s: seq<int>, t: seq<int>, u: seq<int>, lo: int, hi: int, lo': int, hi': int)
    requires Permuted(s, t, lo, hi) && Permuted(t, u, lo', hi')
    requires lo <= lo' && hi' <= hi
    ensures Permuted(s, u, lo, hi)
  {
  }

  /** Every rearrangement of a list whose elements all equal `v` is that same list. */
  lemma PermutationOfConstant(s: seq<int>, t: seq<int>, v: int)
    requires multiset(s) == multiset(t)
    requires forall k :: 0 <= k < |s| ==> s[k] == v
    ensures forall k :: 0 <= k < |t| ==> t[k] == v
  {
    forall k | 0 <= k < |t|
      ensures t[k] == v
    {
      assert t[k] in multiset(t);
      assert t[k] in multiset(s);
      var m :| 0 <= m < |s| && s[m] == t[k];
    }
  }

  /**
   The value at position `k` after the two `copy` calls of `swapBlock` on regions of `n`
   elements starting at `x` (the destination of the first copy) and `y`: the second copy
   writes the saved x-region over the y-region, the first wrote the y-region over the
   x-region.
   */
  function CopySwapAt(s: seq<int>, x: int, y: int, n: int, k: int): int
    requires 0 <= x && x + n <= |s| && 0 <= y && y + n <= |s| && 0 <= k < |s|
  {
    if y <= k < y + n then s[x + (k - y)]
    else if x <= k < x + n then s[y + (k - x)]
    else s[k]
  }

  /** The list after both `copy` calls of `swapBlock`, position by position. */
  function CopySwap(s: seq<int>, x: int, y: int, n: int): (r: seq<int>)
    requires 0 <= x && x + n <= |s| && 0 <= y && y + n <= |s|
    ensures |r| == |s| && forall k :: 0 <= k < |s| ==> r[k] == CopySwapAt(s, x, y, n, k)
  {
    seq(|s|, k requires 0 <= k < |s| => CopySwapAt(s, x, y, n, k))
  }

  /**
   The source's `swapBlock(a, b)`: it saves a's elements, copies b over a and the saved
   elements over b. Go's `copy` moves min(len(a), len(b)) elements, so blocks of unequal
   length exchange only their common-length prefixes.
   */
  function SwapBlock(s: seq<int>, a: SubList, b: SubList): (r: seq<int>)
    requires InList(a, |s|) && InList(b, |s|)
    ensures |r| == |s|
    ensures forall k :: 0 <= k < |s| && !Contains(a, k) && !Contains(b, k) ==> r[k] == s[k]
    ensures Disjoint(a, b) ==> multiset(r) == multiset(s)
    ensures Disjoint(a, b) ==> forall k :: b.begin <= k < b.begin + Min(Len(a), Len(b)) ==>
      r[k] == s[a.begin + (k - b.begin)]
    ensures Disjoint(a, b) ==> forall k :: a.begin <= k < a.begin + Min(Len(a), Len(b)) ==>
      r[k] == s[b.begin + (k - a.begin)]
  {
    var n := Min(Len(a), Len(b));
    var r := CopySwap(s, a.begin, b.begin, n);
    if Disjoint(a, b) then
      CopySwapIsPermutation(s, a.begin, b.begin, n, r);
      r
    else
      r
  }

  lemma CopySwapIsPermutation(s: seq<int>, x: int, y: int, n: nat, r: seq<int>)
    requires 0 <= x && x + n <= |s| && 0 <= y && y + n <= |s|
    requires x + n <= y || y + n <= x
    requires |r| == |s| && forall k :: 0 <= k < |s| ==> r[k] == CopySwapAt(s, x, y, n, k)
    ensures multiset(r) == multiset(s)
  {
    if x + n <= y {
      ExchangeSlices(s, x, y, n, r);
    } else {
      forall k | 0 <= k < |s|
        ensures r[k] == CopySwapAt(s, y, x, n, k)
      {
      }
      ExchangeSlices(s, y, x, n, r);
    }
  }

  /**
   Exchanging s[x..x+n) with the later s[y..y+n) reorders the five pieces of `s`, so the
   multiset of elements is kept.
   */
  lemma ExchangeSlices(s: seq<int>, x: int, y: int, n: nat, r: seq<int>)
    requires 0 <= x && x + n <= y && y + n <= |s|
    requires |r| == |s| && forall k :: 0 <= k < |s| ==> r[k] == CopySwapAt(s, x, y, n, k)
    ensures multiset(r) == multiset(s)
  {
    var a, b, c, d, e := s[..x], s[x..x + n], s[x + n..y], s[y..y + n], s[y + n..];
    assert s == a + b + c + d + e;
    assert r == a + d + c + b + e;
  }
}
