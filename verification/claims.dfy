/**
 The claim loop shared by `partitionParallel` and `selectTopFaA`: one block is taken from
 each end of the bound, and the two are neutralised against each other; whichever comes out
 wholly classified is set aside as neutralised and replaced by the next block from its end,
 until one end has nothing left to hand out. The "parallel" part of the source is this single
 sequential loop.
 */
module Claims {
  import opened Wrappers
  import opened Blocks
  import opened Lists
  import opened Allocator
  import opened Neutraliser

  /**
   The loop's variables: the list, the allocator, the block held at each end with the
   offset below which it is already classified, and the neutralised blocks of each end in
   the order they were set aside.
   */
  datatype Claim = Claim(list: seq<int>, alloc: State,
                         leftBlock: Option<SubList>, i: int,
                         rightBlock: Option<SubList>, j: int,
                         neutralLeft: seq<SubList>, neutralRight: seq<SubList>)

  function Held(b: Option<SubList>): int {
    if b.Some? then 1 else 0
  }

  /**
   The block bookkeeping of the loop: the neutralised left blocks are blocks 0, 1, ... in
   that order and the neutralised right blocks are blocks totalBlocks-1, totalBlocks-2, ...;
   each held block is the next one inward from its end; the cursors count exactly the blocks
   handed out; a missing block means the allocator is exhausted; and when there are at least
   two blocks the last one is always claimed from the right.
   */
  predicate Bookkeeping(g: Layout, c: Claim) {
    && Valid(c.alloc) && c.alloc.layout == g
    && (forall p :: 0 <= p < |c.neutralLeft| ==> p < g.totalBlocks && c.neutralLeft[p] == BlockAt(g, p))
    && (forall p :: 0 <= p < |c.neutralRight| ==>
          0 <= g.totalBlocks - 1 - p && c.neutralRight[p] == BlockAt(g, g.totalBlocks - 1 - p))
    && c.alloc.leftBlockIndex == |c.neutralLeft| + Held(c.leftBlock)
    && c.alloc.rightBlockIndex == g.totalBlocks - 1 - |c.neutralRight| - Held(c.rightBlock)
    && (c.leftBlock.Some? ==>
          |c.neutralLeft| < g.totalBlocks && c.leftBlock.value == BlockAt(g, |c.neutralLeft|))
    && (c.rightBlock.Some? ==>
          0 <= g.totalBlocks - 1 - |c.neutralRight|
          && c.rightBlock.value == BlockAt(g, g.totalBlocks - 1 - |c.neutralRight|))
    && (c.leftBlock.None? || c.rightBlock.None? ==> Exhausted(c.alloc))
    && (g.totalBlocks >= 2 ==> c.alloc.rightBlockIndex <= g.totalBlocks - 2)
    && (c.leftBlock.None? ==> c.i == 0) && (c.rightBlock.None? ==> c.j == 0)
    && 0 <= c.i && (c.leftBlock.Some? ==> c.i < Len(c.leftBlock.value))
    && 0 <= c.j && (c.rightBlock.Some? ==> c.j < Len(c.rightBlock.value))
  }

  /** The bookkeeping of one neutralised left block. */
  lemma NeutralLeftAt(g: Layout, c: Claim, p: int)
    requires Bookkeeping(g, c) && 0 <= p < |c.neutralLeft|
    ensures p < g.totalBlocks && c.neutralLeft[p] == BlockAt(g, p)
  {
    var b := c.neutralLeft[p];
    assert p < g.totalBlocks && b == BlockAt(g, p);
  }

  /** The bookkeeping of one neutralised right block. */
  lemma NeutralRightAt(g: Layout, c: Claim, p: int)
    requires Bookkeeping(g, c) && 0 <= p < |c.neutralRight|
    ensures 0 <= g.totalBlocks - 1 - p && c.neutralRight[p] == BlockAt(g, g.totalBlocks - 1 - p)
  {
    var b := c.neutralRight[p];
    assert 0 <= g.totalBlocks - 1 - p && b == BlockAt(g, g.totalBlocks - 1 - p);
  }

  /**
   A classification stated on positions: `t` rearranges `s` inside [lo, hi), everything in
   [lo, front) is below the pivot, and everything in [back, hi) and in the classified prefix
   of the held right block `rb` is at least the pivot.
   */
  predicate ClassifiedAt(s: seq<int>, t: seq<int>, lo: int, front: int, rb: Option<SubList>, j: int,
                         back: int, hi: int, pivot: int) {
    && hi <= |s|
    && Permuted(s, t, lo, hi)
    && Below(t, lo, front, pivot)
    && (rb.Some? ==> AtLeast(t, rb.value.begin, rb.value.begin + j, pivot))
    && AtLeast(t, back, hi, pivot)
  }

  /**
   What the loop has classified, relative to the list `s` it started from: everything from
   `left` up to the held left block's offset is below the pivot, the held right block's
   prefix and everything after that block is at least the pivot, and the list is a
   rearrangement of `s` inside the bound.
   */
  predicate Classified(s: seq<int>, g: Layout, pivot: int, c: Claim)
    requires Fits(g) && |c.neutralLeft| <= g.totalBlocks && |c.neutralRight| <= g.totalBlocks
  {
    ClassifiedAt(s, c.list, g.left, Edge(g, |c.neutralLeft|) + c.i, c.rightBlock, c.j,
                 Edge(g, g.totalBlocks - |c.neutralRight|), Last(g) + 1, pivot)
  }

  predicate Inv(s: seq<int>, g: Layout, pivot: int, c: Claim) {
    && Bookkeeping(g, c)
    && |c.neutralLeft| + |c.neutralRight| <= g.totalBlocks
    && Classified(s, g, pivot, c)
  }

  /**
   The two initial takes: one block from the left end, then one from the right end. A
   right block is held only when a left one is; from a fresh allocator, a bound of one
   block gives only the left block and a bound of two or more gives both.
   */
  function Start(s: seq<int>, a: State): (c: Claim)
    requires Valid(a)
    ensures c.list == s && c.neutralLeft == [] && c.neutralRight == [] && c.i == 0 && c.j == 0
    ensures c.leftBlock.Some? <==> !Exhausted(a)
    ensures c.rightBlock.Some? ==> c.leftBlock.Some?
    ensures a.leftBlockIndex == 0 && a.rightBlockIndex == a.layout.totalBlocks - 1 ==>
      && (c.leftBlock.Some? <==> a.layout.totalBlocks >= 1)
      && (c.rightBlock.Some? <==> a.layout.totalBlocks >= 2)
  {
    var l := TakeLeft(a);
    var r := TakeRight(l.next);
    Claim(s, r.next, l.block, 0, r.block, 0, [], [])
  }

  lemma StartEstablishesInv(s: seq<int>, a: State, pivot: int)
    requires Valid(a) && a.leftBlockIndex == 0 && a.rightBlockIndex == a.layout.totalBlocks - 1
    requires Last(a.layout) < |s|
    ensures Inv(s, a.layout, pivot, Start(s, a))
  {
    var g := a.layout;
    EdgesIncrease(g, 0, g.totalBlocks);
  }

  /**
   One iteration: neutralise the two held blocks, then set aside whichever came out
   neutralised and take its replacement (the right one first when both did). The list is
   only rearranged, the neutralised blocks of each end only grow, and at least one grows.
   */
  function Step(c: Claim, pivot: int): (c': Claim)
    requires Valid(c.alloc) && c.leftBlock.Some? && c.rightBlock.Some?
    requires Args(c.list, c.leftBlock.value, c.i, c.rightBlock.value, c.j)
    ensures |c'.list| == |c.list| && multiset(c'.list) == multiset(c.list)
    ensures c.neutralLeft <= c'.neutralLeft && c.neutralRight <= c'.neutralRight
    ensures |c.neutralLeft| + |c.neutralRight| < |c'.neutralLeft| + |c'.neutralRight|
  {
    var n := Neutralise(c.list, c.leftBlock.value, c.i, c.rightBlock.value, c.j, pivot);
    Advance(c, Code(n.verdict), n.list)
  }

  /**
   The loop body's branches on the pair (leftOrRight, index) neutralise returns, given the
   list it left behind: a positive leftOrRight sets the right block aside and continues the
   left one from index, a negative one sets the left block aside and continues the right one
   from index, and zero sets both aside.
   */
  function Advance(c: Claim, code: (int, int), list: seq<int>): (c': Claim)
    requires Valid(c.alloc) && c.leftBlock.Some? && c.rightBlock.Some?
    ensures c'.list == list
    ensures code.0 <= 0 <==> c'.neutralLeft == c.neutralLeft + [c.leftBlock.value]
    ensures code.0 >= 0 <==> c'.neutralRight == c.neutralRight + [c.rightBlock.value]
    ensures code.0 > 0 ==> c'.neutralLeft == c.neutralLeft && c'.leftBlock == c.leftBlock && c'.i == code.1
    ensures code.0 < 0 ==> c'.neutralRight == c.neutralRight && c'.rightBlock == c.rightBlock && c'.j == code.1
  {
    var (leftOrRight, index) := code;
    if leftOrRight > 0 then
      var t := TakeRight(c.alloc);
      Claim(list, t.next, c.leftBlock, index, t.block, 0, c.neutralLeft, c.neutralRight + [c.rightBlock.value])
    else if leftOrRight < 0 then
      var t := TakeLeft(c.alloc);
      Claim(list, t.next, t.block, 0, c.rightBlock, index, c.neutralLeft + [c.leftBlock.value], c.neutralRight)
    else
      var r := TakeRight(c.alloc);
      var l := TakeLeft(r.next);
      Claim(list, l.next, l.block, 0, r.block, 0,
            c.neutralLeft + [c.leftBlock.value], c.neutralRight + [c.rightBlock.value])
  }

  /** The offset a verdict hands back lies inside the block it continues with. */
  predicate VerdictFits(c: Claim, v: Verdict)
    requires c.leftBlock.Some? && c.rightBlock.Some?
  {
    && (v.RightDone? ==> 0 <= v.i < Len(c.leftBlock.value))
    && (v.LeftDone? ==> 0 <= v.j < Len(c.rightBlock.value))
  }

  /** Setting a block aside and taking its replacement keeps the bookkeeping. */
  lemma AdvanceKeepsBookkeeping(g: Layout, c: Claim, v: Verdict, list: seq<int>)
    requires Bookkeeping(g, c) && c.leftBlock.Some? && c.rightBlock.Some? && VerdictFits(c, v)
    ensures Bookkeeping(g, Advance(c, Code(v), list))
    ensures |Advance(c, Code(v), list).neutralLeft| + |Advance(c, Code(v), list).neutralRight| <= g.totalBlocks
    ensures |c.neutralLeft| + |c.neutralRight| < |Advance(c, Code(v), list).neutralLeft| + |Advance(c, Code(v), list).neutralRight|
  {
    var c' := Advance(c, Code(v), list);
    assert |c'.neutralLeft| + |c'.neutralRight| + Held(c'.leftBlock) + Held(c'.rightBlock) <= g.totalBlocks;
  }

  /** The held blocks start and end on the edges of their block indices, left before right. */
  lemma HeldBlocksOnEdges(g: Layout, c: Claim)
    requires Bookkeeping(g, c) && c.leftBlock.Some? && c.rightBlock.Some?
    ensures var kl, kr := |c.neutralLeft|, g.totalBlocks - 1 - |c.neutralRight|;
      && 0 <= kl < kr < g.totalBlocks
      && c.leftBlock.value.begin == Edge(g, kl) && c.leftBlock.value.end + 1 == Edge(g, kl + 1)
      && c.rightBlock.value.begin == Edge(g, kr) && c.rightBlock.value.end + 1 == Edge(g, kr + 1)
      && c.leftBlock.value.end < c.rightBlock.value.begin
  {
    var kl, kr := |c.neutralLeft|, g.totalBlocks - 1 - |c.neutralRight|;
    BlocksAreOrdered(g, kl, kr);
    BlockEdges(g, kl);
    BlockEdges(g, kr);
  }

  /**
   Where the classified regions end after Advance: the left front moves to the returned
   offset, or past the whole left block; the right back moves to the start of the right
   block when that block was set aside.
   */
  lemma AdvanceEdges(g: Layout, c: Claim, v: Verdict, list: seq<int>)
    requires Bookkeeping(g, c) && c.leftBlock.Some? && c.rightBlock.Some? && VerdictFits(c, v)
    ensures var c', lb, rb := Advance(c, Code(v), list), c.leftBlock.value, c.rightBlock.value;
      && |c'.neutralLeft| <= g.totalBlocks && |c'.neutralRight| <= g.totalBlocks
      && c'.list == list
      && Edge(g, |c'.neutralLeft|) + c'.i == (if v.RightDone? then lb.begin + v.i else lb.end + 1)
      && Edge(g, g.totalBlocks - |c'.neutralRight|) == (if v.LeftDone? then rb.end + 1 else rb.begin)
      && (v.LeftDone? ==> c'.rightBlock == c.rightBlock && c'.j == v.j)
      && (!v.LeftDone? && c'.rightBlock.Some? ==> c'.j == 0)
  {
    HeldBlocksOnEdges(g, c);
    AdvanceKeepsBookkeeping(g, c, v, list);
  }

  /** Advance moves the classified regions to where the verdict says they now end. */
  lemma AdvanceKeepsClassified(s: seq<int>, g: Layout, pivot: int, c: Claim, v: Verdict, list: seq<int>)
    requires Bookkeeping(g, c) && c.leftBlock.Some? && c.rightBlock.Some? && VerdictFits(c, v)
    requires var lb, rb, lo, hi := c.leftBlock.value, c.rightBlock.value, g.left, Last(g) + 1;
      && (v.RightDone? ==> ClassifiedAt(s, list, lo, lb.begin + v.i, None, 0, rb.begin, hi, pivot))
      && (v.LeftDone? ==> ClassifiedAt(s, list, lo, lb.end + 1, Some(rb), v.j, rb.end + 1, hi, pivot))
      && (v.Both? ==> ClassifiedAt(s, list, lo, lb.end + 1, None, 0, rb.begin, hi, pivot))
    ensures |Advance(c, Code(v), list).neutralLeft| <= g.totalBlocks
    ensures |Advance(c, Code(v), list).neutralRight| <= g.totalBlocks
    ensures Classified(s, g, pivot, Advance(c, Code(v), list))
  {
    AdvanceEdges(g, c, v, list);
    var c' := Advance(c, Code(v), list);
    var lb, rb, lo, hi := c.leftBlock.value, c.rightBlock.value, g.left, Last(g) + 1;
    var front, back := Edge(g, |c'.neutralLeft|) + c'.i, Edge(g, g.totalBlocks - |c'.neutralRight|);
    match v
    case RightDone(i') =>
      assert ClassifiedAt(s, list, lo, front, c'.rightBlock, c'.j, back, hi, pivot);
    case LeftDone(j') =>
      assert ClassifiedAt(s, list, lo, front, c'.rightBlock, c'.j, back, hi, pivot);
    case Both =>
      assert ClassifiedAt(s, list, lo, front, c'.rightBlock, c'.j, back, hi, pivot);
  }

  /**
   What one neutralise call does to the classified regions, stated on plain positions:
   the left region grows to the new left offset or over the whole left block, and the right
   region over the right block's prefix or the whole right block.
   */
  lemma NeutraliseExtends(s: seq<int>, t: seq<int>, lo: int, hi: int, lb: SubList, i: int,
                          rb: SubList, j: int, pivot: int, n: Neutralised)
    requires 0 <= lo <= lb.begin && lb.end < rb.begin && rb.end < hi
    requires 0 <= i < Len(lb) && 0 <= j < Len(rb)
    requires ClassifiedAt(s, t, lo, lb.begin + i, Some(rb), j, rb.end + 1, hi, pivot)
    requires n == Neutralise(t, lb, i, rb, j, pivot)
    ensures n.verdict.RightDone? ==>
      ClassifiedAt(s, n.list, lo, lb.begin + n.verdict.i, None, 0, rb.begin, hi, pivot)
    ensures n.verdict.LeftDone? ==>
      ClassifiedAt(s, n.list, lo, lb.end + 1, Some(rb), n.verdict.j, rb.end + 1, hi, pivot)
    ensures n.verdict.Both? ==>
      ClassifiedAt(s, n.list, lo, lb.end + 1, None, 0, rb.begin, hi, pivot)
  {
    assert SameOutside(t, n.list, lo, hi);
  }

  /** The held blocks meet neutralise's requirements, and what the loop has classified so far. */
  lemma HeldBlocksClassified(s: seq<int>, g: Layout, pivot: int, c: Claim)
    requires Inv(s, g, pivot, c) && c.leftBlock.Some? && c.rightBlock.Some?
    ensures var lb, rb := c.leftBlock.value, c.rightBlock.value;
      && Args(c.list, lb, c.i, rb, c.j)
      && 0 <= g.left <= lb.begin && lb.end < rb.begin && rb.end < Last(g) + 1
      && c.i < Len(lb) && c.j < Len(rb)
      && ClassifiedAt(s, c.list, g.left, lb.begin + c.i, Some(rb), c.j, rb.end + 1, Last(g) + 1, pivot)
  {
    HeldBlocksOnEdges(g, c);
  }

  /** An iteration keeps the invariant and sets aside at least one more block. */
  lemma StepKeepsInv(s: seq<int>, g: Layout, pivot: int, c: Claim)
    requires Inv(s, g, pivot, c) && c.leftBlock.Some? && c.rightBlock.Some?
    ensures Args(c.list, c.leftBlock.value, c.i, c.rightBlock.value, c.j)
    ensures Inv(s, g, pivot, Step(c, pivot))
    ensures |c.neutralLeft| + |c.neutralRight| < |Step(c, pivot).neutralLeft| + |Step(c, pivot).neutralRight|
  {
    var lb, rb := c.leftBlock.value, c.rightBlock.value;
    HeldBlocksClassified(s, g, pivot, c);
    var n := Neutralise(c.list, lb, c.i, rb, c.j, pivot);
    NeutraliseExtends(s, c.list, g.left, Last(g) + 1, lb, c.i, rb, c.j, pivot, n);
    assert VerdictFits(c, n.verdict);
    AdvanceKeepsInv(s, g, pivot, c, n.verdict, n.list);
  }

  /** Advance on the pair for a verdict keeps the invariant, given what the verdict classified. */
  lemma AdvanceKeepsInv(s: seq<int>, g: Layout, pivot: int, c: Claim, v: Verdict, list: seq<int>)
    requires Bookkeeping(g, c) && c.leftBlock.Some? && c.rightBlock.Some? && VerdictFits(c, v)
    requires var lb, rb, lo, hi := c.leftBlock.value, c.rightBlock.value, g.left, Last(g) + 1;
      && (v.RightDone? ==> ClassifiedAt(s, list, lo, lb.begin + v.i, None, 0, rb.begin, hi, pivot))
      && (v.LeftDone? ==> ClassifiedAt(s, list, lo, lb.end + 1, Some(rb), v.j, rb.end + 1, hi, pivot))
      && (v.Both? ==> ClassifiedAt(s, list, lo, lb.end + 1, None, 0, rb.begin, hi, pivot))
    ensures Inv(s, g, pivot, Advance(c, Code(v), list))
    ensures |c.neutralLeft| + |c.neutralRight| < |Advance(c, Code(v), list).neutralLeft| + |Advance(c, Code(v), list).neutralRight|
  {
    AdvanceKeepsBookkeeping(g, c, v, list);
    AdvanceKeepsClassified(s, g, pivot, c, v, list);
  }

  /**
   When the loop stops, every block has been set aside except at most one, which is still
   held: the neutralised left blocks, the held block(s) and the neutralised right blocks
   add up to totalBlocks. A held right block is then the block just after the neutralised
   left ones, and with at least two blocks the left end never set aside the last block.
   */
  lemma LoopEnd(s: seq<int>, g: Layout, pivot: int, c: Claim)
    requires Inv(s, g, pivot, c) && (c.leftBlock.None? || c.rightBlock.None?)
    ensures |c.neutralLeft| + |c.neutralRight| + Held(c.leftBlock) + Held(c.rightBlock) == g.totalBlocks
    ensures c.rightBlock.Some? ==> g.totalBlocks - 1 - |c.neutralRight| == |c.neutralLeft|
    ensures g.totalBlocks >= 2 ==> |c.neutralLeft| <= g.totalBlocks - 1
  {
  }
}
