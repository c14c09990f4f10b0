# parallel-top-n in Dafny

A model of the block-parallel partitioning and selection core of parallel-top-n (`main.go`).
The list is a `seq<int>`. Every operation takes the list and returns the rearranged one, and
every Go loop is a recursive function over the loop's variables.

The model covers these parts of the source:

- **Block allocator** (`NewLeftRightSubLists`, `TakeNextLeft`, `TakeNextRight`). It cuts the
  bound [left, right] into `totalBlocks` blocks of `blockSize` positions. Workers claim blocks
  from both ends until the claims meet. Module `Allocator`, `allocator.dfy`.
- **`neutralise`**. It swaps misplaced elements between a left block and a right block until
  one of the two holds only its own side of the pivot. Module `Neutraliser`.
- **`partition`**. The sequential Lomuto partition, together with the reference fact that a
  partition's boundary equals the range's start plus the number of elements below the pivot.
  Module `Lomuto`.
- **`swapBlock`**. It exchanges two blocks with Go `copy` semantics. Module `Lists`, which also
  holds the permutation, frame and classification predicates.
- **The claim loop**, shared by `partitionParallel` and `selectTopFaA`. Its invariant covers
  the allocator cursors, the neutralised blocks, and the classified prefix and suffix.
  Module `Claims`.
- **The reassembly loops** that swap the remaining block into the middle. Module `Reassembly`.
- **`partitionParallel`**, rounds of claim loop and reassembly until the bound closes. Module
  `ParallelPartition`.
- **`selectTopFaA`**, quickselect over such rounds. Module `Selection`.
- **`mapIndexLR`, `mapLength` and `mapIndex`**, the striping index maps. Module `Striping`.
- **The partitioning tests' lists**, with their below-pivot counts and the boundaries the tests expect. Module `TestLists`.

Go's `rand.Intn` is replaced by a sequence of draws passed in as a parameter. Each draw gives
the pivot offset `draw % (right - left + 1)`, so every offset the source can draw is
reachable. The number of draws also bounds the number of selection rounds. Go's `sort.Slice`
of claimed blocks by `beginIndex` is modelled as reversing the claim order.
`ParallelPartition.ClaimOrderIsSorted` shows that the claim loop sets the blocks aside in
monotone order of `beginIndex`, so that the reversal is the order the sorts produce.

Blocks are cut with the end clamp corrected (see Findings): a block ends at the bound's last
position `left + length - 1`, not where the source's test `end >= length` puts it. On a bound
starting at position 0 the two agree (`Allocator.AsWrittenAgreesFromZero`). On a bound
starting later, the source's blocks can overlap, and every statement below about the claim
loop, `partitionParallel` and `selectTopFaA` is about the corrected blocks.

## Model

| member | source | states |
|---|---|---|
| Allocator.CeilDiv | main.go:30-33 | `totalBlocks` is ceil(length / blockSize): enough blocks to cover the bound, and one fewer would not |
| Allocator.CeilIsUnique | main.go:30-33 | at most one block count has that covering property |
| Allocator.New | main.go:21-38 | a non-empty list gives a valid allocator on [left, right] with no claims, and it is exhausted only for an empty bound; an empty list gives an exhausted allocator with no blocks |
| Allocator.BlockAt | main.go:61-66 | block k starts k blocks after left, lies inside the bound, is full except possibly for the last block, and the last block ends at the bound's end |
| Allocator.BlocksAreOrdered | main.go:61-66 | a block with a lower index ends before a block with a higher index begins |
| Allocator.BlockOfPosition | main.go:61-66 | every position of the bound lies in block (x - left) / blockSize |
| Allocator.TakeLeft | main.go:50-72 | TakeNextLeft returns nil exactly when the claims add up to totalBlocks; otherwise it hands out the block at the left cursor and advances only that cursor |
| Allocator.TakeRight | main.go:75-97 | TakeNextRight mirrors TakeNextLeft, handing out the block at the right cursor and moving that cursor down |
| Allocator.Take | main.go:50-97 | a take from either end returns nil exactly when the allocator is exhausted, and otherwise the block at that end's cursor |
| Allocator.TakeAll | main.go:50-97 | a sequence of takes hands out at most one block per take, keeps the layout, and hands out nothing once the allocator is exhausted |
| Allocator.TakeClaimsOneFreshBlock | main.go:54-58 | the allocator is exhausted exactly when every block is claimed; a take that succeeds hands out one block not claimed before and claims only it |
| Allocator.TakeAllHandsOutFreshBlocks | main.go:50-97 | any sequence of takes hands out distinct unclaimed block indices, each taken from the cursor at that end |
| Allocator.TakeAllHandsOutDisjointBlocks | main.go:50-97 | any sequence of takes from either end hands out pairwise-disjoint blocks inside the bound |
| Allocator.DrainOrderEnumerates | main_FaA_test.go:160-184 | alternating left and right takes visit each block index exactly once |
| Allocator.DrainPairsCount | main_FaA_test.go:160-184 | the test's drain loop hands out exactly as many blocks as were unclaimed when it started |
| Allocator.DrainPairsFollowsOrder | main_FaA_test.go:160-184 | the test's drain loop hands out the blocks in that alternating order |
| Allocator.ExhaustiveClaimsTileTheRange | main_FaA_test.go:106-190 | draining the allocator with alternating takes hands out disjoint blocks that together cover every position of [left, right] |
| Allocator.AsWrittenAgreesFromZero | main_FaA_test.go:109-113 | on a bound starting at 0, the takes exactly as written equal the corrected ones, so the tiling holds for the source in the test's configuration |
| Allocator.NewAsWritten | main.go:22-26 | the source's empty-list sentinel has no blocks, yet it is not exhausted |
| Allocator.BlockAtAsWritten | main.go:61-66 | the block the source cuts starts where the corrected one does, never ends past the bound's last position nor before the corrected block's end, and equals the corrected block on a bound starting at 0 |
| Allocator.TakeLeftAsWritten | main.go:50-72 | TakeNextLeft as written returns nil exactly when exhausted; otherwise the block begins at left + leftBlockIndex * blockSize and only the left cursor moves |
| Allocator.TakeRightAsWritten | main.go:75-97 | TakeNextRight as written, the mirror image |
| Allocator.EmptySentinelAsWrittenHandsOutBlock | main.go:22-26 | TakeNextLeft on the empty-list sentinel hands out [-blockSize, -1] |
| Allocator.ClampAsWrittenOverlaps | main.go:63-65 | with left 4, right 9 and blockSize 4, the clamp as written hands out [4,9] and then [8,9], which overlap |
| Allocator.ConstructFourToNine | main.go:28-37 | the constructor on [4, 9] with blockSize 4 builds length 6 and two blocks, the state ClampAsWrittenOverlaps uses |
| Neutraliser.Code | main.go:520-527 | neutralise's pair: leftOrRight is 0, negative or positive exactly for Both, LeftDone and RightDone, and index is -1, the right block's offset j or the left block's offset i respectively |
| Neutraliser.ScanLeft | main.go:495-500 | the first scan stops at the first element at or above the pivot (or the block's end) and skips only elements below it |
| Neutraliser.ScanRight | main.go:502-507 | the second scan stops at the first element below the pivot and skips only elements at or above it |
| Neutraliser.OnePass | main.go:494-516 | one pass keeps the multiset, touches only the unclassified parts of the two blocks, and extends both classified prefixes; a pass that does not stop moves both offsets |
| Neutraliser.Loop | main.go:494-517 | the loop ends with one block exhausted, both scanned prefixes classified, the multiset kept and nothing outside the blocks' unclassified parts changed |
| Neutraliser.Neutralise | main.go:490-528 | per tag: Both means both blocks are classified from the given offsets; LeftDone(j) means the left block is all below the pivot and the right one classified up to j, with j inside it; RightDone(i) is the mirror image; it only permutes the two blocks |
| Lists.Swap | main.go:515 | the swap exchanges the two positions, leaves every other one alone and keeps the multiset |
| Lists.SwapBlock | main.go:307-315 | swapBlock exchanges the first min(len a, len b) elements of the two blocks and changes nothing outside them; for disjoint blocks it is a permutation |
| Lists.CopySwapIsPermutation | main.go:307-315 | exchanging two disjoint equal-length slices keeps the multiset |
| Lomuto.Scan | main.go:479-485 | the loop from i on keeps [left, store) below the pivot and [store, i) at least the pivot, and permutes only [store, right] |
| Lomuto.Partition | main.go:477-487 | partition permutes only list[left..right] and returns a boundary with everything before it below the pivot and everything after it at least the pivot |
| Lomuto.BoundaryIsCount | main.go:477-487 | any such permutation's boundary is left plus the number of elements of the original range below the pivot |
| Lomuto.PartitionBoundary | main.go:477-487 | partition's boundary is left plus the count of elements below the pivot |
| Lomuto.CountBelowOfPermutation | main.go:477-487 | the count of elements below the pivot depends only on the multiset |
| Claims.Start | main.go:258-262 | the first two takes hold a left block exactly when the allocator had a block, and a right block only with a left one; from a fresh allocator, one block gives only a left block and two or more give both |
| Claims.StartEstablishesInv | main.go:258-262 | the first two takes establish the claim-loop invariant |
| Claims.Step | main.go:263-292 | one iteration only rearranges the list, only extends the lists of neutralised blocks, and extends at least one of them |
| Claims.Advance | main.go:266-291 | the branches on the pair neutralise returns: leftOrRight <= 0 exactly when the left block is set aside and >= 0 exactly when the right one is; a positive leftOrRight keeps the left block and continues it from index, a negative one keeps the right block and continues it from index |
| Claims.AdvanceKeepsBookkeeping | main.go:268-291 | the three tag branches keep the cursor bookkeeping and claim at least one more block as neutralised |
| Claims.NeutraliseExtends | main.go:265 | after neutralise, the classified prefix reaches the end of the neutralised block, or the offset it returned, and the same holds for the suffix |
| Claims.AdvanceKeepsInv | main.go:266-291 | given what the verdict classified, the branch for neutralise's pair keeps the loop invariant and sets aside at least one more block |
| Claims.StepKeepsInv | main.go:263-292 | one iteration of the claim loop keeps the invariant (permutation, classified prefix before the left block, classified suffix after the right block) and strictly increases the neutralised count |
| Claims.LoopEnd | main.go:263-300 | when the loop stops, the neutralised blocks plus the held block account for every block |
| ParallelPartition.ClaimLoop | main.go:263-292 | the claim loop terminates and leaves the list permuted within the bound, everything before the neutralised-left edge below the pivot and everything after the neutralised-right edge at least the pivot |
| ParallelPartition.Claimed | main.go:246-300 | from a fresh allocator, the takes plus the claim loop settle in that state |
| ParallelPartition.RemainingLeft | main.go:292-296 | at most one left block remains |
| ParallelPartition.InitialNewLeftIsEdge | main.go:320-323 | `newLeft` starts just after the innermost neutralised left block, or at `left` when there is none, which is the edge after the blocks neutralised from the left |
| ParallelPartition.InitialNewRightIsEdge | main.go:347-350 | `newRight` starts just before the innermost neutralised right block, or at `right` when there is none, which is one before the edge of the blocks neutralised from the right |
| ParallelPartition.RemainingRight | main.go:292-296 | a right block remains only when no left block does |
| ParallelPartition.RemainingApart | main.go:292-296 | the remaining block is disjoint from every neutralised block on its side |
| ParallelPartition.IdleLeftAtEnd | main.go:324-334 | the remaining left block starts after every neutralised left block, so the guard `s.beginIndex > n.beginIndex` breaks on the first iteration, and newLeft is the neutralised-left edge |
| ParallelPartition.IdleRightAtEnd | main.go:354-362 | the mirror image for the right loop |
| ParallelPartition.SettledIdleAtEnd | main.go:317-386 | both reassembly loops break on their first iteration |
| ParallelPartition.GuardedReassembly | main.go:317-386 | the guarded reassembly swaps nothing, and yields the neutralised edges as the new bound |
| ParallelPartition.PartitionRound | main.go:246-386 | one round permutes only the bound and classifies everything outside [newLeft, newRight], which is at most one block long |
| ParallelPartition.RoundBounds | main.go:318-350 | the new bound lies between the two neutralised edges, at most one block apart |
| ParallelPartition.PartitionParallel | main.go:243-393 | with the exit test and the end clamp corrected: a permutation of list[left..right] only, with a boundary that has everything before it below the pivot and everything from it on at least the pivot; on a bound of at most blockSize it equals partition |
| ParallelPartition.ComposeRounds | main.go:392 | a round followed by a partition of the new bound partitions the whole bound |
| ParallelPartition.PartitionParallelBoundary | main.go:243-393 | partitionParallel returns left plus the number of elements below the pivot, the same boundary as partition |
| ParallelPartition.PartitionParallelAsWritten | main.go:388-392 | with the exit test `newLeft >= newRight` as written, over the corrected blocks: a permutation of the bound whose result may leave the element at the returned index unclassified |
| ParallelPartition.AllBelowRoundLeavesLastElement | main.go:317-386 | on k whole blocks plus one position, all below the pivot, a round leaves the one-position bound [right, right] |
| ParallelPartition.AllBelowBoundaryIsEnd | main.go:243-393 | on a bound that is all below the pivot, the corrected partitionParallel returns right + 1 |
| ParallelPartition.AsWrittenExitSkipsLastElement | main.go:388-390 | on such a bound, e.g. [1,1,1,1,1] with pivot 5 and blockSize 2, the exit test as written returns right, while the corrected one returns right + 1 |
| ParallelPartition.ClaimOrderIsSorted | main.go:301-306 | the loop sets the left blocks aside in ascending and the right blocks in descending order of beginIndex, so their reversals hold the same blocks sorted as the source's sorts (main.go:304-306, 344-346) leave them |
| Reassembly.Reverse | main.go:301-306 | the reversal holds the same blocks as the claim list, position p holding the block from position len - 1 - p |
| Reassembly.ReassembleLeft | main.go:317-336 | the left loop keeps the list's length and changes nothing when there is no remaining or no neutralised block |
| Reassembly.RightStep | main.go:362-384 | one swap of the right loop keeps the list's length and the blocks inside the list, and consumes at least one block |
| Reassembly.ReassembleRight | main.go:347-386 | the right loop keeps the list's length and changes nothing when there is no remaining or no neutralised block |
| Reassembly.ReassembleLeftPermutes | main.go:317-336 | with remaining blocks disjoint from neutralised ones inside [lo, hi], the left loop only permutes [lo, hi] |
| Reassembly.RightStepPermutes | main.go:362-384 | each branch of the right loop (equal, shorter, longer remaining block) permutes within the bound and keeps the blocks inside it and apart |
| Reassembly.ReassembleRightPermutes | main.go:347-386 | the right loop only permutes [lo, hi] |
| Selection.PivotIndex | main.go:108 | the drawn pivot index lies in [left, right] |
| Selection.SelectRound | main.go:112-217 | a selection round (claim loop, then both unguarded reassembly loops) only permutes list[left..right] |
| Selection.WalkUp | main.go:222-229 | the upward walk reaches top exactly when every element from the pivot index to top equals the pivot value; otherwise it stops at the first index not equal to it, which is at most top |
| Selection.WalkDown | main.go:230-237 | the downward walk, the mirror image |
| Selection.WalkUpReadsOnlyRun | main.go:222-229 | the upward walk reads only positions between the pivot index and top |
| Selection.WalkDownReadsOnlyRun | main.go:230-237 | the downward walk reads only positions between top and the pivot index |
| Selection.SelectStep | main.go:104-238 | one round permutes only the bound; any index it returns is top; a narrowed bound keeps left <= top <= right and lies inside the old one |
| Selection.SelectFrom | main.go:103-239 | any index the selection loop returns is top, and the list is only permuted within the bound |
| Selection.SelectTop | main.go:100-241 | over the corrected blocks, selectTopFaA returns top, and the list it leaves is a permutation of the input |
| Selection.AllEqualFoundInFirstRound | main_FaA_test.go:73-78 | on a list of equal values, e.g. the test's ten 1s, the first round returns top for any pivot drawn |
| Striping.MapIndexLR | main.go:586-594 | a virtual index below the two lengths maps to a position of left or of right |
| Striping.MapIndexLRIsConcatenation | main.go:586-594 | mapIndexLR indexes the concatenation of left's positions and right's positions |
| Striping.MapIndexLRIsBijection | main.go:586-594 | for disjoint sub-lists, mapIndexLR is a bijection onto their positions, with LocalIndexLR as inverse |
| Striping.MapLength | main.go:596-612 | every piece owns a non-negative number of positions |
| Striping.MapLengthIsShareOrOneMore | main.go:596-612 | every piece owns its share, (length / b / p) whole blocks, and at most one block more |
| Striping.MapIndex | main.go:614-627 | mapIndex of piece pI's local index i is a position owned by pI (round-robin by block) whose local index is i |
| Striping.MapIndexOfLocalIndex | main.go:614-627 | every position is mapIndex of its owner and its local index |
| Striping.MapIndexInjective | main.go:614-627 | distinct (piece, local index) pairs map to distinct positions |
| Striping.MapIndexInRange | main.go:596-627 | every local index below mapLength maps to a position below length |
| Striping.LocalIndexInRange | main.go:596-627 | every position below length has a local index below its owner's mapLength |
| Striping.StripesPartitionTheList | main_test.go:33-71 | the pieces' index ranges map one-to-one onto [0, length), each position to the piece that owns it |
| Striping.OwnershipIsRoundRobin | main_test.go:50-66 | position 0 belongs to piece 0, and along the list the owner either stays or passes to the next piece mod p |
| Striping.SumLengthsPrefix | main.go:596-612 | the first n pieces' lengths are n whole shares, plus one block for each piece below blocks % p, plus the partial block once piece blocks % p is included |
| Striping.MapLengthsSumToLength | main_test.go:7-22 | the p pieces' mapLengths add up to length |
| TestLists.AllTheSameBoundary | main_FaA_test.go:49-55 | the corrected partitionParallel over the whole test list with pivot 2 returns 1, for block size 2 and every other |
| TestLists.RemainderBoundary | main_FaA_test.go:57-63 | the corrected partitionParallel over the whole test list with pivot 8 returns 8 |
| TestLists.ParallelBoundary | main_FaA_test.go:65-71 | the corrected partitionParallel over the whole test list with pivot 8 returns 7 |
| TestLists.PartitionTestBoundary | main_FaA_test.go:95-104 | partition of positions 4 to 9 with pivot 8 returns 7 and leaves [1, 3, 2, 4, 7, 5, 6, 8, 9, 10], as the test asserts |

## Left out

- The mutex in the allocator (main.go:18, 51-52, 76-77). The model is sequential, and each
  take is one atomic step.
- The `fmt.Printf` tracing, and `SubListDefinition.String` (main.go:45-47). They are output only.
- `rand.Intn`. It is replaced by the draws parameter, as described above.
- `sort.Slice` itself. It is modelled as reversal of the claim order, which
  ParallelPartition.ClaimOrderIsSorted shows to be the sorted order; the sorting algorithm is
  not modelled.
- The commented-out variants of `selectTopFaA` and `partition` (main.go:395-475, 530-585). They
  are not compiled.
- The test helpers and the random-list tests (`generateList`, `Test_selectTopFaA_random`,
  `Test_selectTopFaA_different`). These tests check the rank of the result, which is not modelled.
- Selection.SelectTop: states that the result is `top` and that the list is a permutation.
  It does not state the rank guarantee, that list[0..top] holds the top smallest elements.
  The unguarded reassembly loops of `selectTopFaA` can move an unclassified block across
  classified ones, so no partition is promised after a round.
- Selection.SelectFrom: the source loops until it returns. The model runs at most one round
  per draw and gives None when the draws run out, so termination of the source is not modelled.
- Selection.SelectTop: requires a non-empty list and 0 <= top < len(list). On an empty list the
  source calls `rand.Intn(0)`, which panics.
- Selection.SelectRound: uses the corrected allocator, the one the rest of the model uses, and
  not the clamp as written (see Findings).
- Selection.SelectStep: rests on SelectRound, so its permutation claim holds for the corrected
  blocks only. From the second round on `left` is positive, and the source's overlapping blocks
  can lose elements: one round on [0,0,0,0,0,0,1,2] with left 4, right 7, blockSize 1 and
  pivot 2 leaves [0,0,0,0,0,1,2,1].
- Selection.SelectFrom: the same; its rounds after the first run on bounds with positive `left`.
- Selection.SelectTop: the permutation it promises holds for the corrected blocks. The source,
  with blockSize 1 as in `Test_selectTopFaA_different`, can duplicate one element and drop
  another once the bound has been narrowed away from position 0.
- ParallelPartition.ClaimLoop: its classification holds for the corrected blocks. For left > 0
  and a bound longer than one block the source can misclassify: with left 4, right 9,
  blockSize 4, pivot 5 and list[4..9] = [1,1,1,1,1,9], the source's blocks are [4,9] and [8,9],
  and the neutralised left block [4,9] ends holding 9 at position 8.
- ParallelPartition.Claimed: builds the corrected blocks from `New` for every `left`; the source
  differs for left > 0, as in the ClaimLoop line.
- ParallelPartition.PartitionRound: its classification and its one-block bound on the new bound
  hold for the corrected blocks; on the ClaimLoop input the source's round ends with newLeft 10
  and newRight 9.
- ParallelPartition.PartitionParallel: uses the corrected blocks as well as the corrected exit
  test. On the ClaimLoop input the source returns 10 with list[8] = 9, where the model returns 9.
  The source's tests call it with left = 0. There the blocks agree
  (Allocator.AsWrittenAgreesFromZero), and a round leaves a new bound of at most one block
  (ParallelPartition.RoundBounds), which goes straight to `partition`. So for left = 0 the
  source's `partitionParallel` is exactly PartitionParallelAsWritten.
- ParallelPartition.PartitionParallelBoundary: the boundary left plus the below-pivot count is
  proved for the corrected blocks; the source's 10 on the ClaimLoop input is not 4 + 5.
- ParallelPartition.PartitionParallelAsWritten: is "as written" in its exit test only; it cuts the
  corrected blocks, and its classification before the returned index is false of the source on
  the ClaimLoop input.
- TestLists.AllTheSameBoundary: states the returned index only. The model determines the
  test's expected list too, since it follows the source's swaps in order. Stating that list
  means evaluating the claim loop, the neutralise passes and the reassembly on the literal list
  step by step, and that costs more proof than the verifier's resource limit allows here.
- TestLists.RemainderBoundary: states the returned index only, for the same reason.
- TestLists.ParallelBoundary: states the returned index only, for the same reason.
- Striping.MapLength: requires length >= 0, p >= 1 and b >= 1. With b or p zero, Go's division
  panics. A negative length is not a length.
- Striping.MapIndex: requires p >= 1, b >= 1, 0 <= pI < p and i >= 0, which the only caller
  (main_test.go:39-41) always meets. With b or p zero Go's division panics. For a negative i,
  Go's truncating `/` and `%` differ from Dafny's Euclidean ones, so that case is not modelled.
- Integers are unbounded. The source's `int` is 64-bit, and no index computation here comes
  near overflow for lists that fit in memory.

## Findings

| source | as written | input that shows it | evidently intended | confidence | as-written member | corrected member |
|---|---|---|---|---|---|---|
| main.go:22-26 | the empty-list sentinel sets leftBlockIndex to -1 and rightBlockIndex to -1, so the claims add up to -1 < 0 = totalBlocks and the allocator is not exhausted | TakeNextLeft on an empty list hands out [-blockSize, -1] | an empty list yields no blocks (leftBlockIndex 0, rightBlockIndex -1) | not executed | Allocator.EmptySentinelAsWrittenHandsOutBlock | Allocator.New |
| main.go:63-65 | the end clamp compares the absolute index `right` with the bound's length, and clamps to `s.left + s.length - 1` | left 4, right 9, blockSize 4: the takes hand out [4,9] and then [8,9], which overlap; partitionParallel on list[4..9] = [1,1,1,1,1,9] with pivot 5 then returns 10 with list[8] = 9 instead of 9; with blockSize 1 every block of [4,7] runs to 7, and a selectTopFaA round on [0,0,0,0,0,0,1,2] with pivot 2 leaves [0,0,0,0,0,1,2,1] | clamp when the block's end passes the bound's last position, `s.left + s.length - 1` | not executed | Allocator.ClampAsWrittenOverlaps | Allocator.TakeAllHandsOutDisjointBlocks |
| main.go:388 | `if newLeft >= newRight` returns when the new bound is one position long, without classifying that position | [1,1,1,1,1], pivot 5, blockSize 2: returns 4, but all five elements are below the pivot, so the boundary is 5 | exit only when the bound is empty (`newLeft > newRight`); a one-position bound goes on to `partition` | not executed | ParallelPartition.AsWrittenExitSkipsLastElement | ParallelPartition.AllBelowBoundaryIsEnd |
