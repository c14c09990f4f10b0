/**
 The block allocator (`LeftRightSubLists`): a bound [left, right] cut into `totalBlocks`
 consecutive blocks of `blockSize` positions (the last one possibly shorter), handed out
 from the left end by `TakeLeft` (cursor `leftBlockIndex`, counting up from 0) and from the
 right end by `TakeRight` (cursor `rightBlockIndex`, counting down from totalBlocks-1),
 until the claimed blocks add up to `totalBlocks`.

 The mutex of the source only makes each take one indivisible step; here every take is a
 pure function from state to (block, next state), so callers are serialised by construction.

 Two members model the source as written and are kept next to their corrected versions:
 `NewAsWritten` (the empty-list sentinel is not exhausted) and `TakeLeftAsWritten` /
 `TakeRightAsWritten` (the end clamp compares an absolute index with the length). The rest
 of the model uses `New`, `TakeLeft` and `TakeRight`.
 */
module Allocator {
  import opened Wrappers
  import opened Blocks

  /** The fields fixed at construction: the bound and how it is cut into blocks. */
  datatype Layout = Layout(left: int, right: int, length: int, blockSize: int, totalBlocks: int)

  /** The allocator: its layout and the two cursors; the list is only consulted for its length. */
  datatype State = State(layout: Layout, leftBlockIndex: int, rightBlockIndex: int)

  /** A take's result: the block handed out (None for the source's nil) and the next state. */
  datatype Taken = Taken(block: Option<SubList>, next: State)

  function LeftClaimed(a: State): int {
    a.leftBlockIndex
  }

  function RightClaimed(a: State): int {
    a.layout.totalBlocks - (a.rightBlockIndex + 1)
  }

  /** The test both takes make before handing out anything. */
  predicate Exhausted(a: State) {
    LeftClaimed(a) + RightClaimed(a) >= a.layout.totalBlocks
  }

  /** Last position of the bound, `left + length - 1`. */
  function Last(g: Layout): int {
    g.left + g.length - 1
  }

  /** `n` is ceil(length / blockSize). */
  predicate IsCeil(n: int, length: int, blockSize: int) {
    n * blockSize >= length && (n - 1) * blockSize < length
  }

  /** A positive block size and `totalBlocks` the number of blocks needed to cover the bound. */
  predicate Fits(g: Layout) {
    && g.blockSize > 0
    && 0 <= g.left
    && 0 <= g.length
    && IsCeil(g.totalBlocks, g.length, g.blockSize)
  }

  /**
   The representation invariant: a layout that fits, and claims from the two ends that never
   add up to more than `totalBlocks` (leftBlocksClaimed + rightBlocksClaimed <= totalBlocks).
   */
  predicate Valid(a: State) {
    && Fits(a.layout)
    && 0 <= LeftClaimed(a)
    && 0 <= RightClaimed(a)
    && LeftClaimed(a) + RightClaimed(a) <= a.layout.totalBlocks
  }

  lemma MulMono(x: int, y: int, c: int)
    requires x <= y && c >= 0
    ensures x * c <= y * c
  {
  }

  /** totalBlocks = length / blockSize, plus one when there is a remainder. */
  function CeilDiv(length: int, blockSize: int): (n: int)
    requires 0 <= length && blockSize > 0
    ensures 0 <= n && IsCeil(n, length, blockSize)
  {
    var q := length / blockSize;
    if length % blockSize > 0 then q + 1 else q
  }

  /** Two counts that both cover `length` exactly are the same count. */
  lemma CeilIsUnique(n: int, m: int, length: int, blockSize: int)
    requires blockSize > 0 && IsCeil(n, length, blockSize) && IsCeil(m, length, blockSize)
    ensures n == m
  {
    if n < m {
      MulMono(n, m - 1, blockSize);
    } else if m < n {
      MulMono(m, n - 1, blockSize);
    }
  }

  /**
   `NewLeftRightSubLists`. An empty list gives a sentinel whose cursors leave nothing to
   claim (the corrected form of the source's sentinel, see NewAsWritten); otherwise the
   bound is [left, right] with both cursors at its two ends.
   */
  function New(listLen: nat, left: int, right: int, blockSize: int): (a: State)
    requires blockSize > 0
    requires listLen > 0 ==> 0 <= left <= right + 1
    ensures Valid(a) && a.layout.blockSize == blockSize
    ensures listLen == 0 ==> a.layout.totalBlocks == 0 && Exhausted(a)
    ensures listLen > 0 ==>
      && a.layout.left == left && a.layout.right == right && Last(a.layout) == right
      && a.layout.length == right - left + 1
      && LeftClaimed(a) == 0 && RightClaimed(a) == 0
    ensures listLen > 0 ==> (Exhausted(a) <==> left == right + 1)
  {
    if listLen == 0 then
      State(Layout(0, 0, 0, blockSize, 0), 0, -1)
    else
      var length := right - left + 1;
      var totalBlocks := CeilDiv(length, blockSize);
      State(Layout(left, right, length, blockSize, totalBlocks), 0, totalBlocks - 1)
  }

  /**
   Block `k` of the bound: it starts k blocks in, and its end is clamped to the last
   position of the bound.
   */
  function BlockAt(g: Layout, k: int): (b: SubList)
    requires Fits(g) && 0 <= k < g.totalBlocks
    ensures b.begin == g.left + k * g.blockSize
    ensures Within(b, g.left, Last(g))
    ensures 1 <= Len(b) <= g.blockSize
    ensures k < g.totalBlocks - 1 ==> Len(b) == g.blockSize
    ensures k == g.totalBlocks - 1 ==> b.end == Last(g)
  {
    BlockOffsetBounds(g, k);
    var begin := g.left + k * g.blockSize;
    var end := begin + g.blockSize - 1;
    SubList(begin, if end >= g.left + g.length then g.left + g.length - 1 else end)
  }

  lemma BlockOffsetBounds(g: Layout, k: int)
    requires Fits(g) && 0 <= k < g.totalBlocks
    ensures 0 <= k * g.blockSize <= (g.totalBlocks - 1) * g.blockSize < g.length
    ensures k < g.totalBlocks - 1 ==> (k + 1) * g.blockSize <= (g.totalBlocks - 1) * g.blockSize
  {
    MulMono(0, k, g.blockSize);
    MulMono(k, g.totalBlocks - 1, g.blockSize);
    if k < g.totalBlocks - 1 {
      MulMono(k + 1, g.totalBlocks - 1, g.blockSize);
    }
  }

  /** Distinct block indices give blocks in the same order with no position in common. */
  lemma BlocksAreOrdered(g: Layout, k1: int, k2: int)
    requires Fits(g) && 0 <= k1 < k2 < g.totalBlocks
    ensures BlockAt(g, k1).end < BlockAt(g, k2).begin
  {
    MulMono(k1 + 1, k2, g.blockSize);
  }

  /**
   Where block k starts, for 0 <= k <= totalBlocks: the first position after the first k
   blocks, which is one past the end of the bound once every block is counted.
   */
  function Edge(g: Layout, k: int): (e: int)
    requires Fits(g) && 0 <= k <= g.totalBlocks
    ensures g.left <= e <= Last(g) + 1
  {
    MulMono(0, k, g.blockSize);
    if g.left + k * g.blockSize <= Last(g) then g.left + k * g.blockSize else Last(g) + 1
  }

  /** The edge R blocks before the end of the bound. */
  function EdgeFromEnd(g: Layout, R: int): (e: int)
    requires Fits(g) && 0 <= R <= g.totalBlocks
  {
    Edge(g, g.totalBlocks - R)
  }

  /** Block k runs from Edge(k) up to just before Edge(k + 1). */
  lemma BlockEdges(g: Layout, k: int)
    requires Fits(g) && 0 <= k < g.totalBlocks
    ensures BlockAt(g, k).begin == Edge(g, k)
    ensures BlockAt(g, k).end + 1 == Edge(g, k + 1)
  {
    BlockOffsetBounds(g, k);
    assert (k + 1) * g.blockSize == k * g.blockSize + g.blockSize;
  }

  /** The edges run from `left` to one past `Last`, strictly increasing. */
  lemma EdgesIncrease(g: Layout, k1: int, k2: int)
    requires Fits(g) && 0 <= k1 <= k2 <= g.totalBlocks
    ensures Edge(g, 0) == g.left && Edge(g, g.totalBlocks) == Last(g) + 1
    ensures k1 < k2 ==> Edge(g, k1) < Edge(g, k2)
  {
    if k1 < k2 {
      BlockEdges(g, k1);
      if k1 + 1 < k2 {
        BlockEdges(g, k2 - 1);
        BlocksAreOrdered(g, k1, k2 - 1);
      }
    }
  }

  /** Every position of the bound lies in the block with index (x - left) / blockSize. */
  lemma BlockOfPosition(g: Layout, x: int)
    requires Fits(g) && g.left <= x <= Last(g)
    ensures 0 <= (x - g.left) / g.blockSize < g.totalBlocks
    ensures Contains(BlockAt(g, (x - g.left) / g.blockSize), x)
  {
    var k := (x - g.left) / g.blockSize;
    var bs := g.blockSize;
    assert x - g.left == k * bs + (x - g.left) % bs;
    if k >= g.totalBlocks {
      MulMono(g.totalBlocks, k, bs);
      assert false;
    }
  }

  /**
   `TakeNextLeft`: nil when the claims from both ends already add up to totalBlocks,
   otherwise block `leftBlockIndex`, advancing that cursor.
   */
  function TakeLeft(a: State): (t: Taken)
    requires Valid(a)
    ensures Valid(t.next)
    ensures t.block.None? <==> Exhausted(a)
    ensures t.block.None? ==> t.next == a
    ensures t.block.Some? ==>
      && t.next == a.(leftBlockIndex := a.leftBlockIndex + 1)
      && a.leftBlockIndex < a.layout.totalBlocks
      && t.block.value == BlockAt(a.layout, a.leftBlockIndex)
      && Within(t.block.value, a.layout.left, Last(a.layout))
  {
    if Exhausted(a) then Taken(None, a)
    else Taken(Some(BlockAt(a.layout, a.leftBlockIndex)), a.(leftBlockIndex := a.leftBlockIndex + 1))
  }

  /** `TakeNextRight`: the mirror image, handing out block `rightBlockIndex`. */
  function TakeRight(a: State): (t: Taken)
    requires Valid(a)
    ensures Valid(t.next)
    ensures t.block.None? <==> Exhausted(a)
    ensures t.block.None? ==> t.next == a
    ensures t.block.Some? ==>
      && t.next == a.(rightBlockIndex := a.rightBlockIndex - 1)
      && 0 <= a.rightBlockIndex
      && t.block.value == BlockAt(a.layout, a.rightBlockIndex)
      && Within(t.block.value, a.layout.left, Last(a.layout))
  {
    if Exhausted(a) then Taken(None, a)
    else Taken(Some(BlockAt(a.layout, a.rightBlockIndex)), a.(rightBlockIndex := a.rightBlockIndex - 1))
  }

  // ----- Block-index view: which blocks have been handed out -----

  /** Block `k` has been handed out: it lies in the prefix claimed from the left or the
      suffix claimed from the right. */
  predicate IsClaimed(a: State, k: int) {
    k < a.leftBlockIndex || a.rightBlockIndex < k
  }

  datatype Side = FromLeft | FromRight

  /** A take from either end: nil exactly when exhausted, otherwise that end's cursor block. */
  function Take(a: State, side: Side): (t: Taken)
    requires Valid(a)
    ensures Valid(t.next) && t.next.layout == a.layout
    ensures t.block.None? <==> Exhausted(a)
    ensures t.block.Some? ==>
      t.block.value == BlockAt(a.layout, if side == FromLeft then a.leftBlockIndex else a.rightBlockIndex)
  {
    match side
    case FromLeft => TakeLeft(a)
    case FromRight => TakeRight(a)
  }

  /**
   Whichever end a take comes from, it either reports exhaustion, which happens exactly
   when every block index has been handed out, or hands out the block of one index not
   handed out before, after which exactly that index is added to the claimed ones.
   */
  lemma TakeClaimsOneFreshBlock(a: State, side: Side)
    requires Valid(a)
    ensures Exhausted(a) <==> forall k :: 0 <= k < a.layout.totalBlocks ==> IsClaimed(a, k)
    ensures Take(a, side).block.Some? ==>
      exists k :: 0 <= k < a.layout.totalBlocks && !IsClaimed(a, k)
        && Take(a, side).block.value == BlockAt(a.layout, k)
        && forall k' :: IsClaimed(Take(a, side).next, k') <==> IsClaimed(a, k') || k' == k
  {
    if !Exhausted(a) {
      assert !IsClaimed(a, a.leftBlockIndex);
      var k := if side == FromLeft then a.leftBlockIndex else a.rightBlockIndex;
      assert !IsClaimed(a, k) && Take(a, side).block.value == BlockAt(a.layout, k);
    }
  }

  /**
   Takes in any order, from one end or the other as `sides` says: the blocks handed out,
   in order (a take that reports exhaustion contributes nothing), and the final state.
   */
  function TakeAll(a: State, sides: seq<Side>): (r: (seq<SubList>, State))
    requires Valid(a)
    ensures Valid(r.1) && r.1.layout == a.layout
    ensures |r.0| <= |sides|
    ensures Exhausted(a) ==> r == ([], a)
    decreases |sides|
  {
    if |sides| == 0 then ([], a)
    else
      var t := Take(a, sides[0]);
      var rest := TakeAll(t.next, sides[1..]);
      (ToSeq(t.block) + rest.0, rest.1)
  }

  /** The block index each take of TakeAll hands out, in order. */
  function TakenIndices(a: State, sides: seq<Side>): (ks: seq<int>)
    requires Valid(a)
    decreases |sides|
  {
    if |sides| == 0 then []
    else
      var t := Take(a, sides[0]);
      var k := if sides[0] == FromLeft then a.leftBlockIndex else a.rightBlockIndex;
      (if t.block.Some? then [k] else []) + TakenIndices(t.next, sides[1..])
  }

  /** `ks` lists distinct indices from [lo, hi], and blocks[p] is block ks[p]. */
  predicate HandsOut(g: Layout, lo: int, hi: int, blocks: seq<SubList>, ks: seq<int>)
    requires Fits(g)
  {
    && |ks| == |blocks|
    && (forall p :: 0 <= p < |ks| ==>
          lo <= ks[p] <= hi && 0 <= ks[p] < g.totalBlocks && blocks[p] == BlockAt(g, ks[p]))
    && (forall p, q :: 0 <= p < q < |ks| ==> ks[p] != ks[q])
  }

  /**
   However takes from the two ends interleave, no block is handed out twice: the p-th block
   handed out is block ks[p] for indices ks not yet claimed at the start and pairwise
   distinct.
   */
  lemma {:induction false} TakeAllHandsOutFreshBlocks(a: State, sides: seq<Side>)
    requires Valid(a)
    ensures HandsOut(a.layout, a.leftBlockIndex, a.rightBlockIndex, TakeAll(a, sides).0, TakenIndices(a, sides))
    decreases |sides|
  {
    if |sides| > 0 {
      var t := Take(a, sides[0]);
      TakeAllHandsOutFreshBlocks(t.next, sides[1..]);
      var rest, restKs := TakeAll(t.next, sides[1..]).0, TakenIndices(t.next, sides[1..]);
      var blocks, ks := TakeAll(a, sides).0, TakenIndices(a, sides);
      if t.block.Some? {
        var k := if sides[0] == FromLeft then a.leftBlockIndex else a.rightBlockIndex;
        PrependFreshBlock(a.layout, a.leftBlockIndex, a.rightBlockIndex, k,
          t.next.leftBlockIndex, t.next.rightBlockIndex, blocks, ks, rest, restKs);
      } else {
        assert blocks == rest && ks == restKs;
      }
    }
  }

  /**
   The induction step of TakeAllHandsOutFreshBlocks, on plain sequences: a fresh block at an
   end of the unclaimed range [lo, hi] followed by blocks from [lo', hi'], the range left
   after that take.
   */
  lemma PrependFreshBlock(g: Layout, lo: int, hi: int, k: int, lo': int, hi': int,
                          blocks: seq<SubList>, ks: seq<int>, rest: seq<SubList>, restKs: seq<int>)
    requires Fits(g) && 0 <= lo && hi < g.totalBlocks
    requires (k == lo && lo' == lo + 1 && hi' == hi) || (k == hi && lo' == lo && hi' == hi - 1)
    requires lo <= k <= hi
    requires blocks == [BlockAt(g, k)] + rest && ks == [k] + restKs
    requires HandsOut(g, lo', hi', rest, restKs)
    ensures HandsOut(g, lo, hi, blocks, ks)
  {
    forall p | 1 <= p < |ks|
      ensures lo <= ks[p] <= hi && ks[p] != k && blocks[p] == BlockAt(g, ks[p])
    {
      assert ks[p] == restKs[p - 1] && blocks[p] == rest[p - 1];
    }
  }

  /** Blocks of distinct indices share no position. */
  lemma DistinctIndicesDisjointBlocks(g: Layout, lo: int, hi: int, blocks: seq<SubList>, ks: seq<int>)
    requires Fits(g) && HandsOut(g, lo, hi, blocks, ks)
    ensures forall p, q :: 0 <= p < q < |blocks| ==> Disjoint(blocks[p], blocks[q])
  {
    forall p, q | 0 <= p < q < |blocks|
      ensures Disjoint(blocks[p], blocks[q])
    {
      if ks[p] < ks[q] { BlocksAreOrdered(g, ks[p], ks[q]); } else { BlocksAreOrdered(g, ks[q], ks[p]); }
    }
  }

  /**
   However takes from the two ends interleave, every block handed out lies inside the
   bound and no two of them share a position.
   */
  lemma TakeAllHandsOutDisjointBlocks(a: State, sides: seq<Side>)
    requires Valid(a)
    ensures forall p :: 0 <= p < |TakeAll(a, sides).0| ==>
      Within(TakeAll(a, sides).0[p], a.layout.left, Last(a.layout))
    ensures forall p, q :: 0 <= p < q < |TakeAll(a, sides).0| ==>
      Disjoint(TakeAll(a, sides).0[p], TakeAll(a, sides).0[q])
  {
    var blocks, ks := TakeAll(a, sides).0, TakenIndices(a, sides);
    TakeAllHandsOutFreshBlocks(a, sides);
    DistinctIndicesDisjointBlocks(a.layout, a.leftBlockIndex, a.rightBlockIndex, blocks, ks);
  }

  // ----- Exhaustive claiming, as the allocator test drives it -----

  /**
   The allocator test's loop: take one block from each end, repeatedly, until both takes
   report exhaustion, collecting every block handed out.
   */
  function DrainPairs(a: State): (blocks: seq<SubList>)
    requires Valid(a)
    decreases a.rightBlockIndex - a.leftBlockIndex + 1
  {
    var l := TakeLeft(a);
    var r := TakeRight(l.next);
    if l.block.None? && r.block.None? then []
    else ToSeq(l.block) + ToSeq(r.block) + DrainPairs(r.next)
  }

  /** The block indices lo, hi, lo+1, hi-1, ... met when claiming alternately from both ends. */
  function DrainOrder(lo: int, hi: int): (ks: seq<int>)
    ensures forall p :: 0 <= p < |ks| ==> lo <= ks[p] <= hi
    decreases hi - lo
  {
    if lo > hi then []
    else if lo == hi then [lo]
    else [lo, hi] + DrainOrder(lo + 1, hi - 1)
  }

  /** DrainOrder lists every index of [lo, hi] exactly once. */
  lemma {:induction false} DrainOrderEnumerates(lo: int, hi: int)
    ensures forall p, q :: 0 <= p < q < |DrainOrder(lo, hi)| ==> DrainOrder(lo, hi)[p] != DrainOrder(lo, hi)[q]
    ensures forall k :: lo <= k <= hi ==> k in DrainOrder(lo, hi)
    decreases hi - lo
  {
    if lo < hi {
      DrainOrderEnumerates(lo + 1, hi - 1);
      var ks, rest := DrainOrder(lo, hi), DrainOrder(lo + 1, hi - 1);
      assert ks == [lo, hi] + rest;
      forall p, q | 0 <= p < q < |ks|
        ensures ks[p] != ks[q]
      {
        if p >= 2 {
          assert ks[p] == rest[p - 2] && ks[q] == rest[q - 2];
        } else if q >= 2 {
          assert lo < ks[q] < hi;
        }
      }
      forall k | lo <= k <= hi
        ensures k in ks
      {
        if k == lo {
          assert ks[0] == k;
        } else if k == hi {
          assert ks[1] == k;
        } else {
          assert k in rest;
          var p :| 0 <= p < |rest| && rest[p] == k;
          assert ks[p + 2] == k;
        }
      }
    }
  }

  /** One round of DrainPairs with blocks left at both cursors hands out those two blocks. */
  lemma DrainPairsStep(a: State)
    requires Valid(a) && a.leftBlockIndex < a.rightBlockIndex
    ensures var a' := a.(leftBlockIndex := a.leftBlockIndex + 1, rightBlockIndex := a.rightBlockIndex - 1);
      && Valid(a')
      && DrainPairs(a) == [BlockAt(a.layout, a.leftBlockIndex), BlockAt(a.layout, a.rightBlockIndex)] + DrainPairs(a')
  {
    var a' := a.(leftBlockIndex := a.leftBlockIndex + 1, rightBlockIndex := a.rightBlockIndex - 1);
    var l := TakeLeft(a);
    assert l == Taken(Some(BlockAt(a.layout, a.leftBlockIndex)), a.(leftBlockIndex := a.leftBlockIndex + 1));
    var r := TakeRight(l.next);
    assert r == Taken(Some(BlockAt(a.layout, a.rightBlockIndex)), a');
  }

  /** With one block left, DrainPairs hands out just that block. */
  lemma DrainPairsLast(a: State)
    requires Valid(a) && a.leftBlockIndex == a.rightBlockIndex
    ensures DrainPairs(a) == [BlockAt(a.layout, a.leftBlockIndex)]
    ensures BlocksOf(a.layout, DrainPairs(a), DrainOrder(a.leftBlockIndex, a.rightBlockIndex))
  {
    var l := TakeLeft(a);
    var r := TakeRight(l.next);
    assert l.block == Some(BlockAt(a.layout, a.leftBlockIndex));
    assert r.block.None? && Exhausted(r.next);
    assert DrainPairs(r.next) == [];
    assert DrainOrder(a.leftBlockIndex, a.rightBlockIndex) == [a.leftBlockIndex];
  }

  /** With no block left, DrainPairs hands out nothing. */
  lemma DrainPairsNone(a: State)
    requires Valid(a) && a.leftBlockIndex > a.rightBlockIndex
    ensures DrainPairs(a) == []
    ensures BlocksOf(a.layout, DrainPairs(a), DrainOrder(a.leftBlockIndex, a.rightBlockIndex))
  {
    assert Exhausted(a);
    assert TakeLeft(a).next == a;
    assert DrainOrder(a.leftBlockIndex, a.rightBlockIndex) == [];
  }

  /** The drain hands out as many blocks as were unclaimed when it started. */
  lemma {:induction false} DrainPairsCount(a: State)
    requires Valid(a)
    ensures |DrainPairs(a)| == a.rightBlockIndex + 1 - a.leftBlockIndex
    decreases a.rightBlockIndex - a.leftBlockIndex + 1
  {
    if a.leftBlockIndex < a.rightBlockIndex {
      DrainPairsStep(a);
      DrainPairsCount(a.(leftBlockIndex := a.leftBlockIndex + 1, rightBlockIndex := a.rightBlockIndex - 1));
    } else if a.leftBlockIndex == a.rightBlockIndex {
      DrainPairsLast(a);
    } else {
      DrainPairsNone(a);
    }
  }

  /** blocks[p] is block ks[p] of the layout, for every p. */
  predicate BlocksOf(g: Layout, blocks: seq<SubList>, ks: seq<int>)
    requires Fits(g)
  {
    && |blocks| == |ks|
    && forall p :: 0 <= p < |ks| ==> 0 <= ks[p] < g.totalBlocks && blocks[p] == BlockAt(g, ks[p])
  }

  /** DrainPairs hands out exactly the blocks between the two cursors, in DrainOrder. */
  lemma {:induction false} DrainPairsFollowsOrder(a: State)
    requires Valid(a)
    ensures BlocksOf(a.layout, DrainPairs(a), DrainOrder(a.leftBlockIndex, a.rightBlockIndex))
    decreases a.rightBlockIndex - a.leftBlockIndex + 1
  {
    var lo, hi := a.leftBlockIndex, a.rightBlockIndex;
    if lo < hi {
      var a' := a.(leftBlockIndex := lo + 1, rightBlockIndex := hi - 1);
      DrainPairsStep(a);
      DrainPairsFollowsOrder(a');
      DrainPairsPrepend(a.layout, lo, hi, DrainPairs(a), DrainPairs(a'));
    } else if lo == hi {
      DrainPairsLast(a);
    } else {
      DrainPairsNone(a);
    }
  }

  /**
   The induction step of DrainPairsFollowsOrder, on plain sequences: the two outer blocks
   of [lo, hi], then the blocks of [lo+1, hi-1].
   */
  lemma DrainPairsPrepend(g: Layout, lo: int, hi: int, d: seq<SubList>, rest: seq<SubList>)
    requires Fits(g) && 0 <= lo < hi < g.totalBlocks
    requires d == [BlockAt(g, lo), BlockAt(g, hi)] + rest
    requires BlocksOf(g, rest, DrainOrder(lo + 1, hi - 1))
    ensures BlocksOf(g, d, DrainOrder(lo, hi))
  {
    var ks := DrainOrder(lo, hi);
    var ks' := DrainOrder(lo + 1, hi - 1);
    assert ks == [lo, hi] + ks';
    forall p | 2 <= p < |ks|
      ensures 0 <= ks[p] < g.totalBlocks && d[p] == BlockAt(g, ks[p])
    {
      assert ks[p] == ks'[p - 2] && d[p] == rest[p - 2];
    }
  }

  /** Some block of `blocks` contains position `x`. */
  predicate Covered(blocks: seq<SubList>, x: int) {
    exists p :: 0 <= p < |blocks| && Contains(blocks[p], x)
  }

  /**
   Exhaustive claiming: for any bound [left, right] and any block size, taking from both
   ends until both report exhaustion hands out blocks inside the bound that together cover
   every position of it, and no position twice.
   */
  lemma ExhaustiveClaimsTileTheRange(listLen: nat, left: int, right: int, blockSize: int)
    requires 0 <= left <= right < listLen && blockSize > 0
    ensures var blocks := DrainPairs(New(listLen, left, right, blockSize));
      && (forall p :: 0 <= p < |blocks| ==> Within(blocks[p], left, right))
      && (forall p, q :: 0 <= p < q < |blocks| ==> Disjoint(blocks[p], blocks[q]))
      && (forall x :: left <= x <= right ==> Covered(blocks, x))
  {
    var a := New(listLen, left, right, blockSize);
    var g := a.layout;
    var blocks := DrainPairs(a);
    DrainPairsFollowsOrder(a);
    DrainOrderEnumerates(a.leftBlockIndex, a.rightBlockIndex);
    var ks := DrainOrder(a.leftBlockIndex, a.rightBlockIndex);
    forall p, q | 0 <= p < q < |blocks|
      ensures Disjoint(blocks[p], blocks[q])
    {
      if ks[p] < ks[q] { BlocksAreOrdered(g, ks[p], ks[q]); } else { BlocksAreOrdered(g, ks[q], ks[p]); }
    }
    forall x | left <= x <= right
      ensures Covered(blocks, x)
    {
      BlockOfPosition(g, x);
      var k := (x - left) / blockSize;
      assert k in ks;
      var p :| 0 <= p < |ks| && ks[p] == k;
      assert Contains(blocks[p], x);
    }
  }

  // ----- The source as written -----

  /**
   The source's constructor: for an empty list its sentinel sets leftBlockIndex to -1, so
   the claims appear to add up to -1 and the sentinel is not exhausted.
   */
  function NewAsWritten(listLen: nat, left: int, right: int, blockSize: int): (a: State)
    requires blockSize > 0
    requires listLen > 0 ==> 0 <= left <= right + 1
    ensures listLen > 0 ==> a == New(listLen, left, right, blockSize)
    ensures listLen == 0 ==> a.layout.totalBlocks == 0 && !Exhausted(a)
  {
    if listLen == 0 then State(Layout(0, 0, 0, blockSize, 0), -1, -1)
    else New(listLen, left, right, blockSize)
  }

  /**
   The source's end clamp: `end >= length`, an absolute index against a length. The block
   starts where the corrected one does and never ends before it; on a bound starting at 0
   the two agree.
   */
  function BlockAtAsWritten(g: Layout, k: int): (b: SubList)
    ensures b.begin == g.left + k * g.blockSize
    ensures g.left >= 0 ==> b.end <= Last(g)
    ensures Fits(g) && 0 <= k < g.totalBlocks ==> b.begin == BlockAt(g, k).begin && BlockAt(g, k).end <= b.end
    ensures Fits(g) && 0 <= k < g.totalBlocks && g.left == 0 ==> b == BlockAt(g, k)
  {
    var begin := g.left + k * g.blockSize;
    var end := begin + g.blockSize - 1;
    SubList(begin, if end >= g.length then g.left + g.length - 1 else end)
  }

  /** `TakeNextLeft` as written, for any state, including the sentinel of NewAsWritten. */
  function TakeLeftAsWritten(a: State): (t: Taken)
    ensures t.block.None? <==> Exhausted(a)
    ensures t.block.Some? ==> t.block.value.begin == a.layout.left + a.leftBlockIndex * a.layout.blockSize
    ensures t.block.Some? ==> t.next == a.(leftBlockIndex := a.leftBlockIndex + 1)
  {
    if Exhausted(a) then Taken(None, a)
    else Taken(Some(BlockAtAsWritten(a.layout, a.leftBlockIndex)), a.(leftBlockIndex := a.leftBlockIndex + 1))
  }

  /** `TakeNextRight` as written. */
  function TakeRightAsWritten(a: State): (t: Taken)
    ensures t.block.None? <==> Exhausted(a)
    ensures t.block.Some? ==> t.block.value.begin == a.layout.left + a.rightBlockIndex * a.layout.blockSize
    ensures t.block.Some? ==> t.next == a.(rightBlockIndex := a.rightBlockIndex - 1)
  {
    if Exhausted(a) then Taken(None, a)
    else Taken(Some(BlockAtAsWritten(a.layout, a.rightBlockIndex)), a.(rightBlockIndex := a.rightBlockIndex - 1))
  }

  /**
   On a bound that starts at position 0, as in the allocator test, the takes as written
   hand out the same blocks as TakeLeft and TakeRight, so ExhaustiveClaimsTileTheRange holds
   of the source there.
   */
  lemma AsWrittenAgreesFromZero(a: State)
    requires Valid(a) && a.layout.left == 0
    ensures TakeLeftAsWritten(a) == TakeLeft(a)
    ensures TakeRightAsWritten(a) == TakeRight(a)
  {
  }

  /** The empty-list sentinel as written hands out the range [-blockSize, -1]. */
  lemma EmptySentinelAsWrittenHandsOutBlock(blockSize: int)
    requires blockSize > 0
    ensures TakeLeftAsWritten(NewAsWritten(0, 0, -1, blockSize)).block == Some(SubList(-blockSize, -1))
  {
  }

  /**
   With left = 4, right = 9 and blockSize 4 (the state ConstructFourToNine builds), the
   takes as written hand out [4,9] from the left and then [8,9] from the right.
   */
  lemma ClampAsWrittenOverlaps()
    ensures TakeLeftAsWritten(State(Layout(4, 9, 6, 4, 2), 0, 1))
      == Taken(Some(SubList(4, 9)), State(Layout(4, 9, 6, 4, 2), 1, 1))
    ensures TakeRightAsWritten(State(Layout(4, 9, 6, 4, 2), 1, 1)).block == Some(SubList(8, 9))
    ensures !Disjoint(SubList(4, 9), SubList(8, 9))
  {
  }

  /** The state ClampAsWrittenOverlaps starts from is the one built for [4, 9], blockSize 4. */
  lemma ConstructFourToNine()
    ensures New(10, 4, 9, 4) == State(Layout(4, 9, 6, 4, 2), 0, 1)
  {
  }
}
