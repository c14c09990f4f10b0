/**
 `partitionParallel`: a bound longer than one block is cut into blocks that are claimed
 from both ends and neutralised against each other; the one block left unneutralised
 becomes the new, smaller bound, and the function recurses on it until the bound fits in
 one block, which the sequential `partition` finishes.
 */
module ParallelPartition {
  import opened Wrappers
  import opened Blocks
  import opened Lists
  import opened Allocator
  import opened Claims
  import opened Reassembly
  import opened Lomuto

  /** A round's outcome: the loop's final variables, the list and the new bound. */
  datatype Round = Round(claim: Claim, list: seq<int>, newLeft: int, newRight: int)

  /** `remainingLeftBlocks`: the left block still held when the loop stops, if any. */
  function RemainingLeft(c: Claim): (q: seq<SubList>)
    ensures |q| <= 1
  {
    ToSeq(c.leftBlock)
  }

  /** `remainingRightBlocks`: the right block still held, taken only when no left block is. */
  function RemainingRight(c: Claim): (q: seq<SubList>)
    ensures |q| <= 1
    ensures c.leftBlock.Some? ==> q == []
  {
    if c.leftBlock.Some? then [] else ToSeq(c.rightBlock)
  }

  /** The initial value of `newLeft`: just after the innermost neutralised left block. */
  function InitialNewLeft(nl: seq<SubList>, left: int): int {
    if |nl| > 0 then nl[0].end + 1 else left
  }

  /** The initial value of `newRight`: just before the innermost neutralised right block. */
  function InitialNewRight(nr: seq<SubList>, right: int): int {
    if |nr| > 0 then nr[0].begin - 1 else right
  }

  /**
   Started from the reversed neutralised left blocks, `newLeft` is the edge just after the
   blocks the claim loop neutralised from the left.
   */
  lemma InitialNewLeftIsEdge(g: Layout, c: Claim)
    requires Bookkeeping(g, c)
    ensures |c.neutralLeft| <= g.totalBlocks
    ensures InitialNewLeft(Reverse(c.neutralLeft), g.left) == Edge(g, |c.neutralLeft|)
  {
    var L := |c.neutralLeft|;
    if L > 0 {
      NeutralLeftAt(g, c, L - 1);
      assert Reverse(c.neutralLeft)[0] == BlockAt(g, L - 1);
      BlockEdges(g, L - 1);
    } else {
      EdgesIncrease(g, 0, g.totalBlocks);
    }
  }

  /**
   The mirror image: `newRight` starts just before the blocks the claim loop neutralised from
   the right, or at the bound's end when there are none.
   */
  lemma InitialNewRightIsEdge(g: Layout, c: Claim)
    requires Bookkeeping(g, c) && g.right == Last(g)
    ensures |c.neutralRight| <= g.totalBlocks
    ensures InitialNewRight(Reverse(c.neutralRight), g.right) + 1 == EdgeFromEnd(g, |c.neutralRight|)
  {
    var R := |c.neutralRight|;
    if R > 0 {
      NeutralRightAt(g, c, R - 1);
      assert Reverse(c.neutralRight)[0] == BlockAt(g, g.totalBlocks - R);
      BlockEdges(g, g.totalBlocks - R);
    } else {
      EdgesIncrease(g, 0, g.totalBlocks);
    }
  }

  /** Every block the loop handled lies inside the bound. */
  lemma ClaimedBlocksWithin(g: Layout, c: Claim)
    requires Bookkeeping(g, c)
    ensures AllWithin(c.neutralLeft, g.left, Last(g)) && AllWithin(c.neutralRight, g.left, Last(g))
    ensures AllWithin(Reverse(c.neutralLeft), g.left, Last(g)) && AllWithin(Reverse(c.neutralRight), g.left, Last(g))
    ensures AllWithin(RemainingLeft(c), g.left, Last(g)) && AllWithin(RemainingRight(c), g.left, Last(g))
  {
  }

  /**
   The source sorts the neutralised left blocks by descending begin and the neutralised
   right blocks by ascending begin (main.go:304-306, 344-346) before reassembly. The loop
   sets the left blocks aside in ascending and the right blocks in descending order of
   begin, so reversing the claim order yields exactly the orders the sorts produce.
   */
  lemma ClaimOrderIsSorted(g: Layout, c: Claim)
    requires Bookkeeping(g, c)
    ensures Ascending(c.neutralLeft) && Descending(c.neutralRight)
    ensures Descending(Reverse(c.neutralLeft)) && Ascending(Reverse(c.neutralRight))
    ensures multiset(Reverse(c.neutralLeft)) == multiset(c.neutralLeft)
    ensures multiset(Reverse(c.neutralRight)) == multiset(c.neutralRight)
  {
    NeutralLeftAscending(g, c);
    NeutralRightDescending(g, c);
    ReverseSorts(c.neutralLeft);
    ReverseSorts(c.neutralRight);
    ReverseKeepsBlocks(c.neutralLeft);
    ReverseKeepsBlocks(c.neutralRight);
  }

  lemma NeutralLeftAscending(g: Layout, c: Claim)
    requires Bookkeeping(g, c)
    ensures Ascending(c.neutralLeft)
  {
    forall p, p' | 0 <= p < p' < |c.neutralLeft|
      ensures c.neutralLeft[p].begin < c.neutralLeft[p'].begin
    {
      NeutralLeftAt(g, c, p);
      NeutralLeftAt(g, c, p');
      BlocksAreOrdered(g, p, p');
    }
  }

  lemma NeutralRightDescending(g: Layout, c: Claim)
    requires Bookkeeping(g, c)
    ensures Descending(c.neutralRight)
  {
    forall p, p' | 0 <= p < p' < |c.neutralRight|
      ensures c.neutralRight[p].begin > c.neutralRight[p'].begin
    {
      NeutralRightAt(g, c, p);
      NeutralRightAt(g, c, p');
      BlocksAreOrdered(g, g.totalBlocks - 1 - p', g.totalBlocks - 1 - p);
    }
  }

  lemma AllWithinWiden(q: seq<SubList>, lo: int, hi: int, lo': int, hi': int)
    requires AllWithin(q, lo, hi) && lo' <= lo && hi <= hi'
    ensures AllWithin(q, lo', hi')
  {
  }

  /**
   The left reassembly loop stops at its first test: nothing remains, nothing was
   neutralised, or the remaining block starts after the innermost neutralised block.
   */
  predicate LeftIdle(rem: seq<SubList>, neu: seq<SubList>) {
    |rem| == 0 || |neu| == 0 || rem[0].begin > neu[0].begin
  }

  /** The right loop's mirror image: the remaining block starts before the innermost neutralised one. */
  predicate RightIdle(rem: seq<SubList>, neu: seq<SubList>) {
    |rem| == 0 || |neu| == 0 || rem[0].begin < neu[0].begin
  }

  /** Every remaining block is apart from every neutralised block on its side. */
  lemma RemainingApart(s: seq<int>, g: Layout, pivot: int, c: Claim)
    requires Inv(s, g, pivot, c) && (c.leftBlock.None? || c.rightBlock.None?)
    ensures Apart(RemainingLeft(c), Reverse(c.neutralLeft))
    ensures Apart(RemainingRight(c), Reverse(c.neutralRight))
  {
    LoopEnd(s, g, pivot, c);
    var L, R := |c.neutralLeft|, |c.neutralRight|;
    if c.leftBlock.Some? {
      forall q | 0 <= q < L ensures Disjoint(c.leftBlock.value, Reverse(c.neutralLeft)[q]) {
        BlocksAreOrdered(g, L - 1 - q, L);
      }
    }
    if c.leftBlock.None? && c.rightBlock.Some? {
      forall q | 0 <= q < R ensures Disjoint(c.rightBlock.value, Reverse(c.neutralRight)[q]) {
        BlocksAreOrdered(g, L, g.totalBlocks - R + q);
      }
    }
  }

  /**
   What a round's claim loop leaves behind, in terms of positions: L blocks set aside on
   the left and R on the right, with at most one block between them (never the last block
   on the left when there are two or more).
   */
  predicate SettledShape(s: seq<int>, g: Layout, c: Claim)
    requires Fits(g)
  {
    var L, R := |c.neutralLeft|, |c.neutralRight|;
    && |c.list| == |s| && Last(g) < |s|
    && L + R <= g.totalBlocks <= L + R + 1
    && (g.totalBlocks >= 2 ==> L <= g.totalBlocks - 1)
  }

  /** The bound rearranged; below the pivot up to the first edge, at least it from the second. */
  predicate SettledSides(s: seq<int>, g: Layout, pivot: int, c: Claim)
    requires Fits(g)
  {
    && |c.neutralLeft| + |c.neutralRight| <= g.totalBlocks
    && Permuted(s, c.list, g.left, Last(g) + 1)
    && Below(c.list, g.left, Edge(g, |c.neutralLeft|), pivot)
    && AtLeast(c.list, EdgeFromEnd(g, |c.neutralRight|), Last(g) + 1, pivot)
  }

  /** The blocks the reassembly loops get: inside the bound, the remaining apart from the rest. */
  predicate SettledBlocks(s: seq<int>, g: Layout, c: Claim) {
    var nl, nr := Reverse(c.neutralLeft), Reverse(c.neutralRight);
    && AllWithin(RemainingLeft(c), g.left, g.right) && AllWithin(nl, g.left, g.right)
    && AllWithin(RemainingRight(c), g.left, g.right) && AllWithin(nr, g.left, g.right)
    && Apart(RemainingLeft(c), nl) && Apart(RemainingRight(c), nr)
  }

  /**
   The guarded left reassembly loop stops at its first test, and the new left bound it
   starts from is the edge after the neutralised left blocks.
   */
  predicate IdleLeft(g: Layout, c: Claim)
    requires Fits(g) && |c.neutralLeft| <= g.totalBlocks
  {
    var nl := Reverse(c.neutralLeft);
    && AllWithin(RemainingLeft(c), 0, |c.list| - 1) && AllWithin(nl, 0, |c.list| - 1)
    && LeftIdle(RemainingLeft(c), nl)
    && InitialNewLeft(nl, g.left) == Edge(g, |c.neutralLeft|)
  }

  /** The mirror image: the new right bound is the edge before the neutralised right blocks. */
  predicate IdleRight(g: Layout, c: Claim)
    requires Fits(g) && |c.neutralRight| <= g.totalBlocks
  {
    var nr := Reverse(c.neutralRight);
    && AllWithin(RemainingRight(c), 0, |c.list| - 1) && AllWithin(nr, 0, |c.list| - 1)
    && RightIdle(RemainingRight(c), nr)
    && InitialNewRight(nr, g.right) + 1 == EdgeFromEnd(g, |c.neutralRight|)
  }

  /** Both guarded reassembly loops stop at their first test. */
  predicate SettledIdle(g: Layout, c: Claim)
    requires Fits(g)
  {
    && |c.neutralLeft| + |c.neutralRight| <= g.totalBlocks
    && IdleLeft(g, c) && IdleRight(g, c)
  }

  predicate Settled(s: seq<int>, g: Layout, pivot: int, c: Claim)
    requires Fits(g)
  {
    SettledShape(s, g, c) && SettledSides(s, g, pivot, c) && SettledBlocks(s, g, c) && SettledIdle(g, c)
  }

  lemma SettledShapeAtEnd(s: seq<int>, g: Layout, pivot: int, c: Claim)
    requires Inv(s, g, pivot, c) && (c.leftBlock.None? || c.rightBlock.None?) && Last(g) < |s|
    ensures SettledShape(s, g, c)
  {
    LoopEnd(s, g, pivot, c);
  }

  lemma SettledSidesAtEnd(s: seq<int>, g: Layout, pivot: int, c: Claim)
    requires Inv(s, g, pivot, c) && (c.leftBlock.None? || c.rightBlock.None?)
    ensures SettledSides(s, g, pivot, c)
  {
    var L, R := |c.neutralLeft|, |c.neutralRight|;
    ClassifiedPrefixSuffix(s, c.list, g.left, Edge(g, L) + c.i, c.rightBlock, c.j,
      Edge(g, g.totalBlocks - R), Last(g) + 1, pivot, Edge(g, L));
  }

  /** Weakening a positional classification to its two classified ends. */
  lemma ClassifiedPrefixSuffix(s: seq<int>, t: seq<int>, lo: int, front: int, rb: Option<SubList>, j: int,
                               back: int, hi: int, pivot: int, e: int)
    requires ClassifiedAt(s, t, lo, front, rb, j, back, hi, pivot) && 0 <= lo && e <= front && e <= hi
    ensures Permuted(s, t, lo, hi) && Below(t, lo, e, pivot) && AtLeast(t, back, hi, pivot)
  {
    assert Below(t, lo, front, pivot);
    forall k | lo <= k < e
      ensures 0 <= k < |t| && t[k] < pivot
    {
      assert lo <= k < front && k < |t|;
    }
  }

  lemma SettledBlocksAtEnd(s: seq<int>, g: Layout, pivot: int, c: Claim)
    requires Inv(s, g, pivot, c) && (c.leftBlock.None? || c.rightBlock.None?)
    requires g.right == Last(g) && Last(g) < |c.list|
    ensures SettledBlocks(s, g, c)
  {
    ClaimedBlocksWithin(g, c);
    RemainingApart(s, g, pivot, c);
  }

  lemma SettledIdleAtEnd(s: seq<int>, g: Layout, pivot: int, c: Claim)
    requires Inv(s, g, pivot, c) && (c.leftBlock.None? || c.rightBlock.None?)
    requires g.right == Last(g) && Last(g) < |c.list|
    ensures SettledIdle(g, c)
  {
    LoopEnd(s, g, pivot, c);
    ClaimedBlocksWithin(g, c);
    IdleLeftAtEnd(s, g, pivot, c);
    IdleRightAtEnd(s, g, pivot, c);
  }

  lemma IdleLeftAtEnd(s: seq<int>, g: Layout, pivot: int, c: Claim)
    requires Inv(s, g, pivot, c) && (c.leftBlock.None? || c.rightBlock.None?) && Last(g) < |c.list|
    ensures IdleLeft(g, c)
  {
    LoopEnd(s, g, pivot, c);
    ClaimedBlocksWithin(g, c);
    AllWithinWiden(RemainingLeft(c), g.left, Last(g), 0, |c.list| - 1);
    AllWithinWiden(Reverse(c.neutralLeft), g.left, Last(g), 0, |c.list| - 1);
    var L := |c.neutralLeft|;
    EdgesIncrease(g, 0, g.totalBlocks);
    if L > 0 {
      BlockEdges(g, L - 1);
      if c.leftBlock.Some? {
        BlocksAreOrdered(g, L - 1, L);
      }
    }
  }

  lemma IdleRightAtEnd(s: seq<int>, g: Layout, pivot: int, c: Claim)
    requires Inv(s, g, pivot, c) && (c.leftBlock.None? || c.rightBlock.None?)
    requires g.right == Last(g) && Last(g) < |c.list|
    ensures IdleRight(g, c)
  {
    LoopEnd(s, g, pivot, c);
    ClaimedBlocksWithin(g, c);
    AllWithinWiden(RemainingRight(c), g.left, Last(g), 0, |c.list| - 1);
    AllWithinWiden(Reverse(c.neutralRight), g.left, Last(g), 0, |c.list| - 1);
    var L, R := |c.neutralLeft|, |c.neutralRight|;
    EdgesIncrease(g, 0, g.totalBlocks);
    if R > 0 {
      BlockEdges(g, g.totalBlocks - R);
      if c.rightBlock.Some? && c.leftBlock.None? {
        BlocksAreOrdered(g, g.totalBlocks - 1 - R, g.totalBlocks - R);
      }
    }
  }

  /**
   The claim loop `for leftBlock != nil && rightBlock != nil`, run to the end from a state
   that keeps the loop invariant: what it leaves behind is settled.
   */
  function ClaimLoop(s: seq<int>, g: Layout, pivot: int, c: Claim): (c': Claim)
    requires Inv(s, g, pivot, c) && g.right == Last(g) && Last(g) < |s|
    ensures Settled(s, g, pivot, c')
    decreases g.totalBlocks - |c.neutralLeft| - |c.neutralRight|
  {
    if c.leftBlock.Some? && c.rightBlock.Some? then
      StepKeepsInv(s, g, pivot, c);
      ClaimLoop(s, g, pivot, Step(c, pivot))
    else
      SettledShapeAtEnd(s, g, pivot, c);
      SettledSidesAtEnd(s, g, pivot, c);
      SettledBlocksAtEnd(s, g, pivot, c);
      SettledIdleAtEnd(s, g, pivot, c);
      c
  }

  /** The claim loop of a round, from the two initial takes to the end. */
  function Claimed(s: seq<int>, a: State, pivot: int): (c: Claim)
    requires Valid(a) && a.leftBlockIndex == 0 && a.rightBlockIndex == a.layout.totalBlocks - 1
    requires Last(a.layout) < |s| && a.layout.right == Last(a.layout)
    ensures Settled(s, a.layout, pivot, c)
  {
    StartEstablishesInv(s, a, pivot);
    ClaimLoop(s, a.layout, pivot, Start(s, a))
  }

  /**
   One round of `partitionParallel` on a bound [left, right]: the claim loop, then the
   guarded reassembly. Everything before the new bound is below the pivot, everything after
   it is at least the pivot, and the new bound is at most one block: the block (if any) that
   was still held when the loop stopped.
   */
  function PartitionRound(s: seq<int>, left: int, right: int, blockSize: int, pivot: int): (r: Round)
    requires 0 <= left <= right < |s| && blockSize > 0
    ensures Permuted(s, r.list, left, right + 1)
    ensures left <= r.newLeft <= r.newRight + 1 <= right + 1
    ensures r.newRight + 1 - r.newLeft <= blockSize
    ensures Below(r.list, left, r.newLeft, pivot) && AtLeast(r.list, r.newRight + 1, right + 1, pivot)
  {
    var a := New(|s|, left, right, blockSize);
    var c := Claimed(s, a, pivot);
    var r := GuardedReassembly(a.layout, c);
    RoundBounds(a.layout, |c.neutralLeft|, |c.neutralRight|);
    Round(c, r.0, r.1, r.2)
  }

  /**
   The two guarded reassembly loops, on the claim loop's final variables: the list and the
   new bound (newLeft, newRight). After the claim loop they swap nothing.
   */
  function GuardedReassembly(g: Layout, c: Claim): (r: (seq<int>, int, int))
    requires Fits(g) && SettledIdle(g, c)
    ensures r.0 == c.list
    ensures r.1 == Edge(g, |c.neutralLeft|) && r.2 + 1 == EdgeFromEnd(g, |c.neutralRight|)
  {
    var nl := Reverse(c.neutralLeft);
    var l := ReassembleLeft(c.list, RemainingLeft(c), nl, InitialNewLeft(nl, g.left), true);
    var nr := Reverse(c.neutralRight);
    var r := ReassembleRight(l.0, RemainingRight(c), nr, InitialNewRight(nr, g.right), true);
    (r.0, l.1, r.1)
  }

  /**
   The new bound of a round with layout g: from the edge after the L blocks set aside on
   the left to the edge before the R blocks set aside on the right, with at most one block
   left between them, never the last block on the left once there are two or more.
   */
  predicate RoundEdges(g: Layout, r: Round)
    requires Fits(g)
  {
    var L, R := |r.claim.neutralLeft|, |r.claim.neutralRight|;
    && L + R <= g.totalBlocks <= L + R + 1
    && r.newLeft == Edge(g, L) && r.newRight + 1 == EdgeFromEnd(g, R)
    && (g.totalBlocks >= 2 ==> L <= g.totalBlocks - 1)
  }

  /** Where a round's new bound lies, in terms of the blocks it set aside. */
  lemma PartitionRoundEdges(s: seq<int>, left: int, right: int, blockSize: int, pivot: int)
    requires 0 <= left <= right < |s| && blockSize > 0
    ensures RoundEdges(New(|s|, left, right, blockSize).layout, PartitionRound(s, left, right, blockSize, pivot))
  {
  }

  /** The bound left open by L blocks from the left and R from the right, with at most one between. */
  lemma RoundBounds(g: Layout, L: int, R: int)
    requires Fits(g) && 0 <= L && 0 <= R && L + R <= g.totalBlocks <= L + R + 1
    ensures Edge(g, L) <= EdgeFromEnd(g, R) <= Edge(g, L) + g.blockSize
  {
    EdgesIncrease(g, L, g.totalBlocks - R);
    if L + R < g.totalBlocks {
      BlockEdges(g, L);
    }
  }

  /**
   `partitionParallel` with the exit test corrected to `newLeft > newRight`: it returns the
   boundary of a partition of list[left..right] against the pivot, having only rearranged
   that range. A bound that fits in one block goes straight to `partition`.
   */
  function PartitionParallel(s: seq<int>, left: int, right: int, blockSize: int, pivot: int): (r: (seq<int>, int))
    requires 0 <= left <= right + 1 <= |s| && blockSize > 0
    ensures Permuted(s, r.0, left, right + 1)
    ensures left <= r.1 <= right + 1
    ensures Below(r.0, left, r.1, pivot) && AtLeast(r.0, r.1, right + 1, pivot)
    ensures right - left + 1 <= blockSize ==> r == Partition(s, left, right, pivot)
    decreases right - left + 1
  {
    if New(|s|, left, right, blockSize).layout.length <= blockSize then
      Partition(s, left, right, pivot)
    else
      var m := PartitionRound(s, left, right, blockSize, pivot);
      if m.newLeft > m.newRight then
        (m.list, m.newLeft)
      else
        var r := PartitionParallel(m.list, m.newLeft, m.newRight, blockSize, pivot);
        ComposeRounds(s, m.list, r.0, left, right, m.newLeft, m.newRight, r.1, r.1, pivot);
        r
  }

  /**
   A round that classified [left, newLeft) and (newRight, right], followed by a partition
   of the new bound, partitions the whole bound.
   */
  lemma ComposeRounds(s: seq<int>, t: seq<int>, u: seq<int>, left: int, right: int, newLeft: int, newRight: int,
                      b: int, a: int, pivot: int)
    requires Permuted(s, t, left, right + 1) && Below(t, left, newLeft, pivot) && AtLeast(t, newRight + 1, right + 1, pivot)
    requires Permuted(t, u, newLeft, newRight + 1) && Below(u, newLeft, b, pivot) && AtLeast(u, a, newRight + 1, pivot)
    requires 0 <= left <= newLeft <= b <= newRight + 1 <= right + 1 <= |s| && newLeft <= a
    ensures Permuted(s, u, left, right + 1) && Below(u, left, b, pivot) && AtLeast(u, a, right + 1, pivot)
  {
    PermutedTrans(s, t, u, left, right + 1, newLeft, newRight + 1);
    assert |u| == |t|;
    forall k | left <= k < b
      ensures 0 <= k < |u| && u[k] < pivot
    {
      if k < newLeft {
        assert 0 <= k < |t| && t[k] < pivot;
        assert u[k] == t[k];
      } else {
        assert 0 <= k < |u| && u[k] < pivot;
      }
    }
    forall k | a <= k < right + 1
      ensures 0 <= k < |u| && u[k] >= pivot
    {
      if k > newRight {
        assert 0 <= k < |t| && t[k] >= pivot;
        assert u[k] == t[k];
      } else {
        assert 0 <= k < |u| && u[k] >= pivot;
      }
    }
  }

  /**
   The boundary `partitionParallel` returns is left plus the number of elements of
   list[left..right] below the pivot, which is also what `partition` returns.
   */
  lemma PartitionParallelBoundary(s: seq<int>, left: int, right: int, blockSize: int, pivot: int)
    requires 0 <= left <= right + 1 <= |s| && blockSize > 0
    ensures PartitionParallel(s, left, right, blockSize, pivot).1 == left + CountBelow(s[left..right + 1], pivot)
    ensures PartitionParallel(s, left, right, blockSize, pivot).1 == Partition(s, left, right, pivot).1
  {
    var r := PartitionParallel(s, left, right, blockSize, pivot);
    BoundaryIsCount(s, r.0, left, r.1, right + 1, pivot);
    PartitionBoundary(s, left, right, pivot);
  }

  /**
   `partitionParallel` as written, with the exit test `newLeft >= newRight`: when the new
   bound holds a single element it returns without classifying it, so only the elements
   from one past the returned index on are known to be at least the pivot.
   */
  function PartitionParallelAsWritten(s: seq<int>, left: int, right: int, blockSize: int, pivot: int): (r: (seq<int>, int))
    requires 0 <= left <= right + 1 <= |s| && blockSize > 0
    ensures Permuted(s, r.0, left, right + 1)
    ensures left <= r.1 <= right + 1
    ensures Below(r.0, left, r.1, pivot) && AtLeast(r.0, r.1 + 1, right + 1, pivot)
    decreases right - left + 1
  {
    if New(|s|, left, right, blockSize).layout.length <= blockSize then
      Partition(s, left, right, pivot)
    else
      var m := PartitionRound(s, left, right, blockSize, pivot);
      if m.newLeft >= m.newRight then
        (m.list, m.newLeft)
      else
        var r := PartitionParallelAsWritten(m.list, m.newLeft, m.newRight, blockSize, pivot);
        ComposeRounds(s, m.list, r.0, left, right, m.newLeft, m.newRight, r.1, r.1 + 1, pivot);
        r
  }

  /**
   A bound of k whole blocks plus one position has k + 1 blocks, and the last of them is
   that one position alone.
   */
  lemma OneOverWholeBlocks(g: Layout, k: int)
    requires Fits(g) && k >= 1 && g.length == k * g.blockSize + 1
    ensures g.totalBlocks == k + 1 && Edge(g, k) == Last(g)
  {
    assert (k + 1) * g.blockSize == k * g.blockSize + g.blockSize;
    CeilIsUnique(g.totalBlocks, k + 1, g.length, g.blockSize);
  }

  /** A rearrangement of a range whose elements are all below the pivot is one too. */
  lemma BelowKept(s: seq<int>, t: seq<int>, lo: int, hi: int, pivot: int)
    requires 0 <= lo <= hi <= |s| && Permuted(s, t, lo, hi) && Below(s, lo, hi, pivot)
    ensures Below(t, lo, hi, pivot)
  {
    PermutedSlice(s, t, lo, hi);
    forall x | lo <= x < hi
      ensures 0 <= x < |t| && t[x] < pivot
    {
      assert t[x] == t[lo..hi][x - lo];
      assert t[x] in multiset(s[lo..hi]);
      var y :| 0 <= y < hi - lo && s[lo..hi][y] == t[x];
      assert s[lo + y] < pivot;
    }
  }

  /**
   A round on a bound of k whole blocks plus one position, all below the pivot, leaves
   that last position as the new bound: nothing can be set aside on the right, so every
   block but the last was set aside on the left.
   */
  lemma AllBelowRoundLeavesLastElement(s: seq<int>, left: int, right: int, blockSize: int, k: int, pivot: int)
    requires 0 <= left <= right < |s| && blockSize > 0 && k >= 1 && right - left == k * blockSize
    requires Below(s, left, right + 1, pivot)
    ensures PartitionRound(s, left, right, blockSize, pivot).newLeft == right
    ensures PartitionRound(s, left, right, blockSize, pivot).newRight == right
  {
    PartitionRoundEdges(s, left, right, blockSize, pivot);
    LastElementOnly(s, left, right, k, New(|s|, left, right, blockSize).layout,
      PartitionRound(s, left, right, blockSize, pivot), pivot);
  }

  /** The argument above, from what a round promises about its new bound. */
  lemma LastElementOnly(s: seq<int>, left: int, right: int, k: int, g: Layout, m: Round, pivot: int)
    requires 0 <= left <= right < |s| && Below(s, left, right + 1, pivot)
    requires Fits(g) && g.left == left && Last(g) == right && k >= 1 && g.length == k * g.blockSize + 1
    requires RoundEdges(g, m)
    requires Permuted(s, m.list, left, right + 1) && AtLeast(m.list, m.newRight + 1, right + 1, pivot)
    ensures m.newLeft == right && m.newRight == right
  {
    OneOverWholeBlocks(g, k);
    BelowKept(s, m.list, left, right + 1, pivot);
    var L, R := |m.claim.neutralLeft|, |m.claim.neutralRight|;
    var last := m.list[right];
    if R >= 1 {
      EdgesIncrease(g, g.totalBlocks - R, k);
      assert false;
    }
    EdgesIncrease(g, k, g.totalBlocks);
  }

  /**
   On a bound whose elements are all below the pivot, the corrected `partitionParallel`
   returns one past its end. The element at the returned index, when there is one, would be
   both below the pivot and at least the pivot; naming it gives the verifier that term.
   */
  lemma AllBelowBoundaryIsEnd(s: seq<int>, left: int, right: int, blockSize: int, pivot: int)
    requires 0 <= left <= right + 1 <= |s| && blockSize > 0
    requires Below(s, left, right + 1, pivot)
    ensures PartitionParallel(s, left, right, blockSize, pivot).1 == right + 1
  {
    var r := PartitionParallel(s, left, right, blockSize, pivot);
    BelowKept(s, r.0, left, right + 1, pivot);
    var first := if 0 <= r.1 < |r.0| then r.0[r.1] else 0;
  }

  /**
   On a bound of k whole blocks plus one position whose elements are all below the pivot
   (such as [1, 1, 1, 1, 1] with pivot 5 and block size 2), the boundary is one past the
   bound, which the corrected exit test returns; the exit test as written stops at the
   one-position bound [right, right] and returns `right`, leaving list[right] unclassified.
   */
  lemma AsWrittenExitSkipsLastElement(s: seq<int>, left: int, right: int, blockSize: int, k: int, pivot: int)
    requires 0 <= left <= right < |s| && blockSize > 0 && k >= 1 && right - left == k * blockSize
    requires Below(s, left, right + 1, pivot)
    ensures PartitionParallelAsWritten(s, left, right, blockSize, pivot).1 == right
    ensures PartitionParallel(s, left, right, blockSize, pivot).1 == right + 1
  {
    MulMono(1, k, blockSize);
    AllBelowRoundLeavesLastElement(s, left, right, blockSize, k, pivot);
    AllBelowBoundaryIsEnd(s, left, right, blockSize, pivot);
  }
}
