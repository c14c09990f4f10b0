/**
 `neutralise`: given a block from the left end and a disjoint block from the right end, and
 offsets i, j into them below which they are already classified, swap elements at or above
 the pivot out of the left block with elements below the pivot out of the right block,
 until one of the two blocks holds only its own kind ("is neutralised").
 */
module Neutraliser {
  import opened Blocks
  import opened Lists

  /**
   Which block came out neutralised. The source encodes this as the pair (leftOrRight, index):
   (0, -1) for Both, (-1, j) for LeftDone(j) and (1, i) for RightDone(i), where the index is
   the offset at which work on the other block stopped.
   */
  datatype Verdict = Both | LeftDone(j: int) | RightDone(i: int)

  datatype Neutralised = Neutralised(verdict: Verdict, list: seq<int>)

  /** The pair the source returns for a verdict. */
  function Code(v: Verdict): (r: (int, int))
    ensures r.0 == 0 <==> v.Both?
    ensures r.0 < 0 <==> v.LeftDone?
    ensures r.0 > 0 <==> v.RightDone?
    ensures v.Both? ==> r.1 == -1
    ensures v.LeftDone? ==> r.1 == v.j
    ensures v.RightDone? ==> r.1 == v.i
  {
    match v
    case Both => (0, -1)
    case LeftDone(j) => (-1, j)
    case RightDone(i) => (1, i)
  }

  /** The two blocks neutralise may work on: inside the list, disjoint, offsets within them. */
  predicate Args(s: seq<int>, left: SubList, i: int, right: SubList, j: int) {
    && InList(left, |s|) && InList(right, |s|) && Disjoint(left, right)
    && 0 <= i <= Len(left) && 0 <= j <= Len(right)
  }

  /**
   The first scan of the source's loop: from offset i, the first offset of `b` holding an
   element at or above the pivot, or Len(b) when there is none.
   */
  function ScanLeft(s: seq<int>, b: SubList, i: int, pivot: int): (i': int)
    requires InList(b, |s|) && 0 <= i <= Len(b)
    ensures i <= i' <= Len(b)
    ensures Below(s, b.begin + i, b.begin + i', pivot)
    ensures i' < Len(b) ==> s[b.begin + i'] >= pivot
    decreases Len(b) - i
  {
    if i == Len(b) || s[b.begin + i] >= pivot then i
    else ScanLeft(s, b, i + 1, pivot)
  }

  /** The second scan: the first offset of `b` from j holding an element below the pivot. */
  function ScanRight(s: seq<int>, b: SubList, j: int, pivot: int): (j': int)
    requires InList(b, |s|) && 0 <= j <= Len(b)
    ensures j <= j' <= Len(b)
    ensures AtLeast(s, b.begin + j, b.begin + j', pivot)
    ensures j' < Len(b) ==> s[b.begin + j'] < pivot
    decreases Len(b) - j
  {
    if j == Len(b) || s[b.begin + j] < pivot then j
    else ScanRight(s, b, j + 1, pivot)
  }

  /** The list changes only in the unclassified parts of the two blocks. */
  predicate OnlyTouches(s: seq<int>, t: seq<int>, left: SubList, i: int, right: SubList, j: int) {
    && |t| == |s|
    && forall k :: 0 <= k < |s| && !(left.begin + i <= k <= left.end) && !(right.begin + j <= k <= right.end) ==>
         t[k] == s[k]
  }

  /**
   What the source's outer loop achieves from offsets (i, j), for the list and final offsets
   r: one of the offsets has reached the end of its block, everything passed over in the
   left block is below the pivot and everything passed over in the right block is at least
   the pivot, and only the unclassified parts of the blocks were rearranged.
   */
  predicate LoopDone(s: seq<int>, left: SubList, i: int, right: SubList, j: int, pivot: int, r: (seq<int>, int, int)) {
    && multiset(r.0) == multiset(s)
    && OnlyTouches(s, r.0, left, i, right, j)
    && i <= r.1 <= Len(left) && j <= r.2 <= Len(right)
    && (r.1 == Len(left) || r.2 == Len(right))
    && Below(r.0, left.begin + i, left.begin + r.1, pivot)
    && AtLeast(r.0, right.begin + j, right.begin + r.2, pivot)
  }

  /** One pass of the source's outer loop body: both scans, then a swap unless a scan ran out. */
  datatype Pass = Pass(list: seq<int>, i: int, j: int, stopped: bool)

  /**
   One pass from offsets (i, j), both inside their blocks: the scans skip what is already
   on the right side of the pivot; if neither ran out, the two misplaced elements are
   swapped and both offsets move past them.
   */
  function OnePass(s: seq<int>, left: SubList, i: int, right: SubList, j: int, pivot: int): (p: Pass)
    requires Args(s, left, i, right, j) && i < Len(left) && j < Len(right)
    ensures multiset(p.list) == multiset(s)
    ensures OnlyTouches(s, p.list, left, i, right, j)
    ensures i <= p.i <= Len(left) && j <= p.j <= Len(right)
    ensures p.stopped ==> p.list == s && (p.i == Len(left) || p.j == Len(right))
    ensures !p.stopped ==> i < p.i && j < p.j
    ensures Below(p.list, left.begin + i, left.begin + p.i, pivot)
    ensures AtLeast(p.list, right.begin + j, right.begin + p.j, pivot)
  {
    var i' := ScanLeft(s, left, i, pivot);
    var j' := ScanRight(s, right, j, pivot);
    if i' == Len(left) || j' == Len(right) then
      Pass(s, i', j', true)
    else
      Pass(Swap(s, left.begin + i', right.begin + j'), i' + 1, j' + 1, false)
  }

  /** The source's outer loop, from offsets (i, j): the list and the offsets where it stops. */
  function Loop(s: seq<int>, left: SubList, i: int, right: SubList, j: int, pivot: int): (r: (seq<int>, int, int))
    requires Args(s, left, i, right, j)
    ensures LoopDone(s, left, i, right, j, pivot, r)
    decreases Len(left) - i
  {
    if i < Len(left) && j < Len(right) then
      var p := OnePass(s, left, i, right, j, pivot);
      if p.stopped then
        (p.list, p.i, p.j)
      else
        var r := Loop(p.list, left, p.i, right, p.j, pivot);
        PassThenLoop(s, left, i, right, j, pivot, p, r);
        r
    else
      (s, i, j)
  }

  /**
   A pass that did not stop, then the rest of the loop: what the pass classified lies
   before the offsets the rest of the loop starts from, so it stays classified.
   */
  lemma PassThenLoop(s: seq<int>, left: SubList, i: int, right: SubList, j: int, pivot: int,
                     p: Pass, r: (seq<int>, int, int))
    requires Args(s, left, i, right, j) && i < Len(left) && j < Len(right)
    requires p == OnePass(s, left, i, right, j, pivot)
    requires LoopDone(p.list, left, p.i, right, p.j, pivot, r)
    ensures LoopDone(s, left, i, right, j, pivot, r)
  {
    var t := r.0;
    assert OnlyTouches(s, t, left, i, right, j);
    assert Below(t, left.begin + i, left.begin + p.i, pivot);
    assert AtLeast(t, right.begin + j, right.begin + p.j, pivot);
  }

  /**
   `neutralise`. Its result says which block is now wholly classified, and how far the
   other one got:
   - LeftDone(j'): the left block from offset i on is below the pivot, the right block from
     offset j up to j' is at least the pivot, and j' is inside the right block;
   - RightDone(i'): the mirror image;
   - Both: both blocks, from the given offsets on, are classified.
   Only the unclassified parts of the two blocks are rearranged.
   */
  function Neutralise(s: seq<int>, left: SubList, i: int, right: SubList, j: int, pivot: int): (n: Neutralised)
    requires Args(s, left, i, right, j)
    ensures multiset(n.list) == multiset(s)
    ensures OnlyTouches(s, n.list, left, i, right, j)
    ensures n.verdict.Both? ==>
      && Below(n.list, left.begin + i, left.end + 1, pivot)
      && AtLeast(n.list, right.begin + j, right.end + 1, pivot)
    ensures n.verdict.LeftDone? ==>
      && j <= n.verdict.j < Len(right)
      && Below(n.list, left.begin + i, left.end + 1, pivot)
      && AtLeast(n.list, right.begin + j, right.begin + n.verdict.j, pivot)
    ensures n.verdict.RightDone? ==>
      && i <= n.verdict.i < Len(left)
      && Below(n.list, left.begin + i, left.begin + n.verdict.i, pivot)
      && AtLeast(n.list, right.begin + j, right.end + 1, pivot)
  {
    var r := Loop(s, left, i, right, j, pivot);
    if r.1 == Len(left) && r.2 == Len(right) then Neutralised(Both, r.0)
    else if r.1 == Len(left) then Neutralised(LeftDone(r.2), r.0)
    else Neutralised(RightDone(r.1), r.0)
  }
}
