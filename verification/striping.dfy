/**
 Index maps that let several workers share one list without copying it.
 - `mapIndexLR` reads the concatenation of two sub-lists as one list.
 - `mapLength` and `mapIndex` stripe a list over p pieces: the list is cut into blocks of b
   positions, block K goes to piece K % p (round-robin), and piece pI addresses its
   positions with a local index 0, 1, 2, ... running through its blocks in order.
 */
module Striping {
  import opened Blocks
  import opened Lists
  import opened Allocator

  /** The positions of `b`, in order. */
  function Positions(b: SubList): (r: seq<int>)
    requires Len(b) >= 0
    ensures |r| == Len(b) && forall j :: 0 <= j < |r| ==> r[j] == b.begin + j
  {
    seq(Len(b), j requires 0 <= j < Len(b) => b.begin + j)
  }

  /**
   `mapIndexLR(i, left, right)`: position i of the virtual list made of `left` followed by
   `right` is `left.beginIndex + i` while that is inside `left`, and continues at the
   start of `right` after it.
   */
  function MapIndexLR(i: int, left: SubList, right: SubList): (k: int)
    ensures Len(left) >= 0 && 0 <= i < Len(left) + Len(right) ==> Contains(left, k) || Contains(right, k)
  {
    var k := left.begin + i;
    if k > left.end then right.begin + (i - Len(left)) else k
  }

  /** The virtual list's index of a position of `left` or `right`. */
  function LocalIndexLR(k: int, left: SubList, right: SubList): (i: int)
    requires Contains(left, k) || Contains(right, k)
    ensures Len(left) >= 0 && Len(right) >= 0 ==> 0 <= i < Len(left) + Len(right)
  {
    if Contains(left, k) then k - left.begin else Len(left) + (k - right.begin)
  }

  /** `mapIndexLR` indexes the concatenation of the two sub-lists' positions. */
  lemma MapIndexLRIsConcatenation(i: int, left: SubList, right: SubList)
    requires Len(left) >= 0 && Len(right) >= 0 && 0 <= i < Len(left) + Len(right)
    ensures MapIndexLR(i, left, right) == (Positions(left) + Positions(right))[i]
  {
  }

  /**
   For two disjoint sub-lists, `mapIndexLR` is a bijection from the virtual indices onto
   the positions of the two sub-lists, with LocalIndexLR as its inverse.
   */
  lemma MapIndexLRIsBijection(left: SubList, right: SubList)
    requires Len(left) >= 1 && Len(right) >= 1 && Disjoint(left, right)
    ensures forall i :: 0 <= i < Len(left) + Len(right) ==>
      LocalIndexLR(MapIndexLR(i, left, right), left, right) == i
    ensures forall k :: Contains(left, k) || Contains(right, k) ==>
      MapIndexLR(LocalIndexLR(k, left, right), left, right) == k
  {
  }

  /** The piece that owns position k: block k / b, dealt round-robin over p pieces. */
  function Owner(p: int, b: int, k: int): (pI: int)
    requires p >= 1 && b >= 1
    ensures 0 <= pI < p
  {
    (k / b) % p
  }

  /**
   `mapLength(length, p, b, pI)`: how many positions piece pI owns. Each piece gets
   (blocks / p) whole blocks; the first blocks % p pieces get one more; the piece after
   them gets the partial block at the end of the list.
   */
  function MapLength(length: int, p: int, b: int, pI: int): (n: int)
    requires length >= 0 && p >= 1 && b >= 1
    ensures n >= 0
  {
    var blocks := length / b;
    var lastBlockLength := length % b;
    var pLength := (blocks / p) * b;
    MulMono(0, blocks / p, b);
    var withExtra := if blocks % p > pI then pLength + b else pLength;
    if blocks % p == pI then withExtra + lastBlockLength else withExtra
  }

  /** Every piece owns its share of whole blocks and at most one block more. */
  lemma MapLengthIsShareOrOneMore(length: int, p: int, b: int, pI: int)
    requires length >= 0 && p >= 1 && b >= 1
    ensures (length / b / p) * b <= MapLength(length, p, b, pI) <= (length / b / p) * b + b
  {
    assert 0 <= length % b < b;
  }

  /** `mapIndex(p, b, pI, i)`: the list position of piece pI's local index i. */
  function MapIndex(p: int, b: int, pI: int, i: int): (k: int)
    requires p >= 1 && b >= 1 && 0 <= pI < p && i >= 0
    ensures k >= 0 && Owner(p, b, k) == pI && LocalIndex(p, b, k) == i
  {
    var blocksDistance := p * b;
    var block := i / b;
    var startingIndex := pI * b;
    var blockStartIndex := startingIndex + block * blocksDistance;
    var offset := i % b;
    var k := blockStartIndex + offset;
    MapIndexSplits(p, b, pI, i, k);
    k
  }

  /** The inverse of `mapIndex`: the local index of position k within its owner. */
  function LocalIndex(p: int, b: int, k: int): (i: int)
    requires p >= 1 && b >= 1 && k >= 0
    ensures i >= 0
  {
    MulMono(0, (k / b) / p, b);
    ((k / b) / p) * b + k % b
  }

  /** x is q blocks of d and r more exactly when x / d == q and x % d == r. */
  lemma DivModUnique(x: int, d: int, q: int, r: int)
    requires d > 0 && 0 <= r < d && x == q * d + r
    ensures x / d == q && x % d == r
  {
    var q', r' := x / d, x % d;
    assert x == q' * d + r';
    if q < q' {
      MulMono(q + 1, q', d);
    } else if q' < q {
      MulMono(q' + 1, q, d);
    }
  }

  /** Euclidean division: 0 <= x % d < d and x == (x / d) * d + x % d. */
  lemma DivMod(x: int, d: int)
    requires d > 0
    ensures x == (x / d) * d + x % d && 0 <= x % d < d
  {
  }

  /** Position k of piece pI's local index i lies in block (i / b) * p + pI, at offset i % b. */
  lemma MapIndexSplits(p: int, b: int, pI: int, i: int, k: int)
    requires p >= 1 && b >= 1 && 0 <= pI < p && i >= 0
    requires k == pI * b + (i / b) * (p * b) + i % b
    ensures k >= 0 && (k / b) % p == pI && ((k / b) / p) * b + k % b == i
  {
    var blk, off := i / b, i % b;
    DivMod(i, b);
    var K := blk * p + pI;
    assert blk >= 0;
    assert blk * (p * b) == (blk * p) * b;
    assert k == K * b + off;
    MulMono(0, K, b);
    DivModUnique(k, b, K, off);
    DivModUnique(K, p, blk, pI);
  }

  /** Every position is piece Owner(k)'s local index LocalIndex(k). */
  lemma MapIndexOfLocalIndex(p: int, b: int, k: int)
    requires p >= 1 && b >= 1 && k >= 0
    ensures MapIndex(p, b, Owner(p, b, k), LocalIndex(p, b, k)) == k
  {
    var K, off := k / b, k % b;
    DivMod(k, b);
    var blk, pI := K / p, K % p;
    DivMod(K, p);
    var i := LocalIndex(p, b, k);
    assert i == blk * b + off;
    assert K >= 0 && blk >= 0;
    DivModUnique(i, b, blk, off);
    assert blk * (p * b) == (blk * p) * b;
    assert pI * b + blk * (p * b) == (blk * p + pI) * b;
  }

  /** `mapIndex` is injective: distinct (piece, local index) pairs address distinct positions. */
  lemma MapIndexInjective(p: int, b: int, pI: int, i: int, pJ: int, j: int)
    requires p >= 1 && b >= 1 && 0 <= pI < p && 0 <= pJ < p && i >= 0 && j >= 0
    requires MapIndex(p, b, pI, i) == MapIndex(p, b, pJ, j)
    ensures pI == pJ && i == j
  {
  }

  /** A whole number of blocks before block n ends before block n starts. */
  lemma BlockBefore(k: int, n: int, d: int, off: int)
    requires d > 0 && 0 <= off < d && k < n
    ensures k * d + off < n * d
  {
    MulMono(k + 1, n, d);
  }

  /** A value below n blocks of d lies in a block before block n. */
  lemma DivBelow(x: int, n: int, d: int)
    requires d > 0 && 0 <= x < n * d
    ensures x / d < n
  {
    DivMod(x, d);
    if x / d >= n {
      MulMono(n, x / d, d);
    }
  }

  /**
   Every local index below MapLength addresses a position of the list: it lies either in
   one of the piece's whole blocks or, for the piece after the ones with an extra block,
   in the partial block at the end.
   */
  lemma MapIndexInRange(length: int, p: int, b: int, pI: int, i: int)
    requires length >= 0 && p >= 1 && b >= 1 && 0 <= pI < p
    requires 0 <= i < MapLength(length, p, b, pI)
    ensures MapIndex(p, b, pI, i) < length
  {
    var blocks, last := length / b, length % b;
    DivMod(length, b);
    var q, m := blocks / p, blocks % p;
    DivMod(blocks, p);
    var blk, off := i / b, i % b;
    DivMod(i, b);
    var K := blk * p + pI;
    MapIndexIsBlockAndOffset(p, b, pI, i);
    assert MapIndex(p, b, pI, i) == K * b + off;
    assert (q + 1) * b == q * b + b;
    DivBelow(i, q + 1, b);
    if blk < q {
      BlockBefore(blk, q, p, pI);
      BlockBefore(K, blocks, b, off);
    } else if m > pI {
      BlockBefore(K, blocks, b, off);
    } else {
      assert m == pI && K == blocks;
    }
  }

  /** `mapIndex` of local index i of piece pI is offset i % b into block (i / b) * p + pI. */
  lemma MapIndexIsBlockAndOffset(p: int, b: int, pI: int, i: int)
    requires p >= 1 && b >= 1 && 0 <= pI < p && i >= 0
    ensures MapIndex(p, b, pI, i) == ((i / b) * p + pI) * b + i % b
  {
    assert (i / b) * (p * b) == ((i / b) * p) * b;
  }

  /**
   Every position of the list is below MapLength for the piece that owns it, so the pieces'
   local ranges reach every position.
   */
  lemma LocalIndexInRange(length: int, p: int, b: int, k: int)
    requires length >= 0 && p >= 1 && b >= 1 && 0 <= k < length
    ensures LocalIndex(p, b, k) < MapLength(length, p, b, Owner(p, b, k))
  {
    var blocks, last := length / b, length % b;
    DivMod(length, b);
    var q, m := blocks / p, blocks % p;
    DivMod(blocks, p);
    var K, off := k / b, k % b;
    DivMod(k, b);
    var blk, pI := K / p, K % p;
    DivMod(K, p);
    assert (blocks + 1) * b == blocks * b + b;
    DivBelow(k, blocks + 1, b);
    assert (q + 1) * p == q * p + p;
    DivBelow(K, q + 1, p);
    if blk < q {
      BlockBefore(blk, q, b, off);
    } else if K == blocks {
      assert off < last;
    }
  }

  /**
   The stripes partition the list: (pI, i) with i < MapLength(pI) goes to a position of the
   list owned by pI, and back; every position of the list is reached this way exactly once.
   */
  lemma StripesPartitionTheList(length: int, p: int, b: int)
    requires length >= 0 && p >= 1 && b >= 1
    ensures forall pI, i :: 0 <= pI < p && 0 <= i < MapLength(length, p, b, pI) ==>
      && 0 <= MapIndex(p, b, pI, i) < length
      && Owner(p, b, MapIndex(p, b, pI, i)) == pI
      && LocalIndex(p, b, MapIndex(p, b, pI, i)) == i
    ensures forall k :: 0 <= k < length ==>
      && LocalIndex(p, b, k) < MapLength(length, p, b, Owner(p, b, k))
      && MapIndex(p, b, Owner(p, b, k), LocalIndex(p, b, k)) == k
  {
    forall pI, i | 0 <= pI < p && 0 <= i < MapLength(length, p, b, pI)
      ensures 0 <= MapIndex(p, b, pI, i) < length
    {
      MapIndexInRange(length, p, b, pI, i);
    }
    forall k | 0 <= k < length
      ensures LocalIndex(p, b, k) < MapLength(length, p, b, Owner(p, b, k))
      ensures MapIndex(p, b, Owner(p, b, k), LocalIndex(p, b, k)) == k
    {
      LocalIndexInRange(length, p, b, k);
      MapIndexOfLocalIndex(p, b, k);
    }
  }

  /**
   Ownership is round-robin along the list: position 0 belongs to piece 0, and moving one
   position on either keeps the owner or passes to the next piece, wrapping after p - 1.
   */
  lemma OwnershipIsRoundRobin(p: int, b: int, k: int)
    requires p >= 1 && b >= 1 && k >= 0
    ensures Owner(p, b, 0) == 0
    ensures Owner(p, b, k + 1) == Owner(p, b, k) || Owner(p, b, k + 1) == (Owner(p, b, k) + 1) % p
  {
    DivModUnique(0, b, 0, 0);
    DivModUnique(0, p, 0, 0);
    var K, off := k / b, k % b;
    DivMod(k, b);
    if off + 1 < b {
      DivModUnique(k + 1, b, K, off + 1);
    } else {
      assert (K + 1) * b == K * b + b;
      DivModUnique(k + 1, b, K + 1, 0);
      var q, r := K / p, K % p;
      DivMod(K, p);
      if r + 1 < p {
        DivModUnique(K + 1, p, q, r + 1);
        DivModUnique(r + 1, p, 0, r + 1);
      } else {
        DivModUnique(r + 1, p, 1, 0);
        assert (q + 1) * p == q * p + p;
        DivModUnique(K + 1, p, q + 1, 0);
      }
    }
  }

  /** The lengths of pieces 0 .. n - 1 added up. */
  function SumLengths(length: int, p: int, b: int, n: int): (total: int)
    requires length >= 0 && p >= 1 && b >= 1 && n >= 0
    ensures total >= 0
  {
    if n == 0 then 0 else SumLengths(length, p, b, n - 1) + MapLength(length, p, b, n - 1)
  }

  /** The whole blocks every piece gets, in positions: (blocks / p) * b. */
  function Share(length: int, p: int, b: int): int
    requires length >= 0 && p >= 1 && b >= 1
  {
    ((length / b) / p) * b
  }

  /**
   The first n pieces hold n shares of whole blocks, one extra block each for those below
   blocks % p, and the partial block once the piece blocks % p is among them.
   */
  lemma {:induction false} SumLengthsPrefix(length: int, p: int, b: int, n: int)
    requires length >= 0 && p >= 1 && b >= 1 && 0 <= n <= p
    ensures SumLengths(length, p, b, n) ==
      n * Share(length, p, b) + Min(n, (length / b) % p) * b + (if n > (length / b) % p then length % b else 0)
  {
    if n > 0 {
      SumLengthsPrefix(length, p, b, n - 1);
      var m := (length / b) % p;
      assert n * Share(length, p, b) == (n - 1) * Share(length, p, b) + Share(length, p, b);
      if n - 1 < m {
        assert Min(n, m) * b == Min(n - 1, m) * b + b;
      }
    }
  }

  /** The pieces' lengths add up to the length of the list. */
  lemma MapLengthsSumToLength(length: int, p: int, b: int)
    requires length >= 0 && p >= 1 && b >= 1
    ensures SumLengths(length, p, b, p) == length
  {
    SumLengthsPrefix(length, p, b, p);
    var blocks := length / b;
    DivMod(length, b);
    var q, m := blocks / p, blocks % p;
    DivMod(blocks, p);
    assert p * (q * b) + m * b == (q * p + m) * b;
  }
}
