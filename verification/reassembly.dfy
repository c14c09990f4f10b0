/**
 The sequential tail of a round: the remaining (unneutralised) blocks are swapped with
 neutralised ones so that the unclassified elements gather in the middle of the bound.
 Both loops are modelled once, with a `guarded` flag: `partitionParallel` stops as soon as a
 remaining block lies beyond the neutralised block it would be swapped with, and also tracks
 the new bound; `selectTopFaA` swaps without that test.
 */
module Reassembly {
  import opened Blocks
  import opened Lists

  /** `sort.Slice` applied to blocks whose begins strictly increase: their reversal. */
  function Reverse(q: seq<SubList>): (r: seq<SubList>)
    ensures |r| == |q|
    ensures forall p :: 0 <= p < |q| ==> r[p] == q[|q| - 1 - p]
  {
    if |q| == 0 then [] else Reverse(q[1..]) + [q[0]]
  }

  predicate Ascending(q: seq<SubList>) {
    forall p, p' :: 0 <= p < p' < |q| ==> q[p].begin < q[p'].begin
  }

  predicate Descending(q: seq<SubList>) {
    forall p, p' :: 0 <= p < p' < |q| ==> q[p].begin > q[p'].begin
  }

  /**
   Sorting by begin: reversing strictly increasing begins gives strictly decreasing ones
   and the other way round, so with distinct keys the reversal is the sorted order the
   source's `sort.Slice` calls produce.
   */
  lemma ReverseSorts(q: seq<SubList>)
    ensures Ascending(q) ==> Descending(Reverse(q))
    ensures Descending(q) ==> Ascending(Reverse(q))
  {
  }

  /** Reversal only reorders: the same blocks, each as often. */
  lemma {:induction false} ReverseKeepsBlocks(q: seq<SubList>)
    ensures multiset(Reverse(q)) == multiset(q)
    decreases |q|
  {
    if |q| > 0 {
      ReverseKeepsBlocks(q[1..]);
      assert q == [q[0]] + q[1..];
    }
  }

  predicate AllWithin(q: seq<SubList>, lo: int, hi: int) {
    forall p :: 0 <= p < |q| ==> Within(q[p], lo, hi)
  }

  /** Every block of `a` is disjoint from every block of `b`. */
  predicate Apart(a: seq<SubList>, b: seq<SubList>) {
    forall p, q :: 0 <= p < |a| && 0 <= q < |b| ==> Disjoint(a[p], b[q])
  }

  /**
   The left loop: the next remaining block is swapped with the next neutralised block,
   and the new left bound moves past the remaining block. Guarded, it stops at the first
   remaining block that starts after the neutralised block it would be swapped with.
   */
  function ReassembleLeft(s: seq<int>, rem: seq<SubList>, neu: seq<SubList>, newLeft: int, guarded: bool): (r: (seq<int>, int))
    requires AllWithin(rem, 0, |s| - 1) && AllWithin(neu, 0, |s| - 1)
    ensures |r.0| == |s|
    ensures (|rem| == 0 || |neu| == 0) ==> r == (s, newLeft)
    decreases |rem|
  {
    if |rem| == 0 || |neu| == 0 then (s, newLeft)
    else if guarded && rem[0].begin > neu[0].begin then (s, newLeft)
    else ReassembleLeft(SwapBlock(s, rem[0], neu[0]), rem[1..], neu[1..], rem[0].end + 1, guarded)
  }

  /** The right loop's variables: the list, the two block lists and the new right bound. */
  datatype Swaps = Swaps(list: seq<int>, rem: seq<SubList>, neu: seq<SubList>, bound: int)

  /**
   One swap of the right loop, decided by the lengths: equal blocks are swapped whole; a
   shorter remaining block is swapped with the front of the neutralised one, which then
   loses that front; a longer remaining block has its tail swapped with the whole
   neutralised block and keeps its front. The new right bound moves to just before the
   remaining block, or onto the start of the swapped tail.
   */
  function RightStep(w: Swaps): (w': Swaps)
    requires |w.rem| > 0 && |w.neu| > 0
    requires AllWithin(w.rem, 0, |w.list| - 1) && AllWithin(w.neu, 0, |w.list| - 1)
    ensures |w'.list| == |w.list|
    ensures AllWithin(w'.rem, 0, |w.list| - 1) && AllWithin(w'.neu, 0, |w.list| - 1)
    ensures |w'.rem| + |w'.neu| < |w.rem| + |w.neu|
  {
    var u, n := w.rem[0], w.neu[0];
    if Len(u) == Len(n) then
      Swaps(SwapBlock(w.list, u, n), w.rem[1..], w.neu[1..], u.begin - 1)
    else if Len(u) < Len(n) then
      var n' := n.(begin := n.begin + Len(u));
      ReplaceFront(w.neu, n', w.rem, 0, |w.list| - 1);
      Swaps(SwapBlock(w.list, u, n), w.rem[1..], [n'] + w.neu[1..], u.begin - 1)
    else
      var partial := SubList(u.end + 1 - Len(n), u.end);
      var u' := u.(end := partial.begin - 1);
      ReplaceFront(w.rem, u', w.neu, 0, |w.list| - 1);
      Swaps(SwapBlock(w.list, partial, n), [u'] + w.rem[1..], w.neu[1..], partial.begin)
  }

  /**
   The right loop. Guarded, it stops at the first remaining block that starts before the
   neutralised block it would be swapped with.
   */
  function ReassembleRight(s: seq<int>, rem: seq<SubList>, neu: seq<SubList>, newRight: int, guarded: bool): (r: (seq<int>, int))
    requires AllWithin(rem, 0, |s| - 1) && AllWithin(neu, 0, |s| - 1)
    ensures |r.0| == |s|
    ensures (|rem| == 0 || |neu| == 0) ==> r == (s, newRight)
    decreases |rem| + |neu|
  {
    if |rem| == 0 || |neu| == 0 then (s, newRight)
    else if guarded && rem[0].begin < neu[0].begin then (s, newRight)
    else
      var w := RightStep(Swaps(s, rem, neu, newRight));
      ReassembleRight(w.list, w.rem, w.neu, w.bound, guarded)
  }

  /** With every remaining block apart from every neutralised one, the left loop only permutes. */
  lemma {:induction false} ReassembleLeftPermutes(s: seq<int>, rem: seq<SubList>, neu: seq<SubList>,
                                                  newLeft: int, guarded: bool, lo: int, hi: int)
    requires 0 <= lo && hi < |s|
    requires AllWithin(rem, lo, hi) && AllWithin(neu, lo, hi) && Apart(rem, neu)
    ensures Permuted(s, ReassembleLeft(s, rem, neu, newLeft, guarded).0, lo, hi + 1)
    decreases |rem|
  {
    if |rem| == 0 || |neu| == 0 {
    } else if guarded && rem[0].begin > neu[0].begin {
    } else {
      var s' := SwapBlock(s, rem[0], neu[0]);
      assert Permuted(s, s', lo, hi + 1);
      ReassembleLeftPermutes(s', rem[1..], neu[1..], rem[0].end + 1, guarded, lo, hi);
    }
  }

  /** Swapping two disjoint blocks inside [lo, hi] permutes that range. */
  lemma SwapBlockPermutes(s: seq<int>, a: SubList, b: SubList, lo: int, hi: int)
    requires 0 <= lo && hi < |s| && Within(a, lo, hi) && Within(b, lo, hi) && Disjoint(a, b)
    ensures Permuted(s, SwapBlock(s, a, b), lo, hi + 1)
  {
  }

  /** Replacing the first block by a block inside it keeps a list of blocks within bounds and apart. */
  lemma ReplaceFront(q: seq<SubList>, b: SubList, others: seq<SubList>, lo: int, hi: int)
    requires |q| > 0 && q[0].begin <= b.begin <= b.end <= q[0].end
    ensures AllWithin(q, lo, hi) ==> AllWithin([b] + q[1..], lo, hi)
    ensures Apart(q, others) ==> Apart([b] + q[1..], others)
    ensures Apart(others, q) ==> Apart(others, [b] + q[1..])
  {
    var q' := [b] + q[1..];
    if AllWithin(q, lo, hi) {
      forall p | 0 <= p < |q'| ensures Within(q'[p], lo, hi) {
        if p > 0 { assert q'[p] == q[p]; }
      }
    }
    if Apart(q, others) {
      forall p, r | 0 <= p < |q'| && 0 <= r < |others| ensures Disjoint(q'[p], others[r]) {
        if p > 0 { assert q'[p] == q[p]; } else { assert Disjoint(q[0], others[r]); }
      }
    }
    if Apart(others, q) {
      forall r, p | 0 <= r < |others| && 0 <= p < |q'| ensures Disjoint(others[r], q'[p]) {
        if p > 0 { assert q'[p] == q[p]; } else { assert Disjoint(others[r], q[0]); }
      }
    }
  }

  /** What a swap of the right loop keeps: the range permuted, the blocks within it and apart. */
  predicate StepKept(w: Swaps, w': Swaps, lo: int, hi: int) {
    Permuted(w.list, w'.list, lo, hi + 1) && AllWithin(w'.rem, lo, hi) && AllWithin(w'.neu, lo, hi)
    && Apart(w'.rem, w'.neu)
  }

  /** A swap of the right loop permutes the range and keeps the blocks within it and apart. */
  lemma RightStepPermutes(w: Swaps, lo: int, hi: int)
    requires 0 <= lo && hi < |w.list| && |w.rem| > 0 && |w.neu| > 0
    requires AllWithin(w.rem, lo, hi) && AllWithin(w.neu, lo, hi) && Apart(w.rem, w.neu)
    ensures StepKept(w, RightStep(w), lo, hi)
  {
    var u, n := w.rem[0], w.neu[0];
    if Len(u) == Len(n) {
      EqualStepPermutes(w, lo, hi);
    } else if Len(u) < Len(n) {
      ShorterStepPermutes(w, lo, hi);
    } else {
      LongerStepPermutes(w, lo, hi);
    }
  }

  /** Equal lengths: both blocks are swapped whole and dropped. */
  lemma EqualStepPermutes(w: Swaps, lo: int, hi: int)
    requires 0 <= lo && hi < |w.list| && |w.rem| > 0 && |w.neu| > 0
    requires AllWithin(w.rem, lo, hi) && AllWithin(w.neu, lo, hi) && Apart(w.rem, w.neu)
    requires Len(w.rem[0]) == Len(w.neu[0])
    ensures StepKept(w, RightStep(w), lo, hi)
  {
    assert Disjoint(w.rem[0], w.neu[0]);
    SwapBlockPermutes(w.list, w.rem[0], w.neu[0], lo, hi);
  }

  /** A shorter remaining block: the neutralised block keeps its unswapped tail. */
  lemma ShorterStepPermutes(w: Swaps, lo: int, hi: int)
    requires 0 <= lo && hi < |w.list| && |w.rem| > 0 && |w.neu| > 0
    requires AllWithin(w.rem, lo, hi) && AllWithin(w.neu, lo, hi) && Apart(w.rem, w.neu)
    requires Len(w.rem[0]) < Len(w.neu[0])
    ensures StepKept(w, RightStep(w), lo, hi)
  {
    var u, n := w.rem[0], w.neu[0];
    assert Disjoint(u, n);
    SwapBlockPermutes(w.list, u, n, lo, hi);
    ReplaceFront(w.neu, n.(begin := n.begin + Len(u)), w.rem, lo, hi);
  }

  /** A longer remaining block: its tail is swapped and it keeps its front. */
  lemma LongerStepPermutes(w: Swaps, lo: int, hi: int)
    requires 0 <= lo && hi < |w.list| && |w.rem| > 0 && |w.neu| > 0
    requires AllWithin(w.rem, lo, hi) && AllWithin(w.neu, lo, hi) && Apart(w.rem, w.neu)
    requires Len(w.rem[0]) > Len(w.neu[0])
    ensures StepKept(w, RightStep(w), lo, hi)
  {
    LongerStepShape(w, lo, hi);
    TailSwapKept(w.list, w.rem, w.neu, lo, hi);
  }

  /** The longer-block branch's result, spelled out. */
  lemma LongerStepShape(w: Swaps, lo: int, hi: int)
    requires 0 <= lo && hi < |w.list| && |w.rem| > 0 && |w.neu| > 0
    requires AllWithin(w.rem, lo, hi) && AllWithin(w.neu, lo, hi)
    requires Len(w.rem[0]) > Len(w.neu[0])
    ensures AllWithin(w.rem, 0, |w.list| - 1) && AllWithin(w.neu, 0, |w.list| - 1)
    ensures var u, n := w.rem[0], w.neu[0];
      var partial := SubList(u.end + 1 - Len(n), u.end);
      RightStep(w) == Swaps(SwapBlock(w.list, partial, n), [u.(end := partial.begin - 1)] + w.rem[1..], w.neu[1..], partial.begin)
  {
  }

  /**
   Swapping the tail of the first remaining block with the whole first neutralised block
   permutes the range, and the shortened remaining block stays within it and apart.
   */
  lemma TailSwapKept(s: seq<int>, rem: seq<SubList>, neu: seq<SubList>, lo: int, hi: int)
    requires 0 <= lo && hi < |s| && |rem| > 0 && |neu| > 0
    requires AllWithin(rem, lo, hi) && AllWithin(neu, lo, hi) && Apart(rem, neu)
    requires Len(rem[0]) > Len(neu[0])
    ensures var u, n := rem[0], neu[0];
      var partial := SubList(u.end + 1 - Len(n), u.end);
      var rem' := [u.(end := partial.begin - 1)] + rem[1..];
      && Permuted(s, SwapBlock(s, partial, n), lo, hi + 1)
      && AllWithin(rem', lo, hi) && AllWithin(neu[1..], lo, hi) && Apart(rem', neu[1..])
  {
    var u, n := rem[0], neu[0];
    assert Disjoint(u, n);
    var partial := SubList(u.end + 1 - Len(n), u.end);
    var u' := u.(end := partial.begin - 1);
    SwapBlockPermutes(s, partial, n, lo, hi);
    ReplaceFront(rem, u', neu, lo, hi);
    DropFront([u'] + rem[1..], neu, lo, hi);
  }

  /** Dropping the first block of `b` keeps it within bounds and apart from `a`. */
  lemma DropFront(a: seq<SubList>, b: seq<SubList>, lo: int, hi: int)
    requires |b| > 0
    ensures AllWithin(b, lo, hi) ==> AllWithin(b[1..], lo, hi)
    ensures Apart(a, b) ==> Apart(a, b[1..])
  {
    if Apart(a, b) {
      forall p, q | 0 <= p < |a| && 0 <= q < |b| - 1 ensures Disjoint(a[p], b[1..][q]) {
        assert b[1..][q] == b[q + 1];
      }
    }
  }

  /** With every remaining block apart from every neutralised one, the right loop only permutes. */
  lemma {:induction false} ReassembleRightPermutes(s: seq<int>, rem: seq<SubList>, neu: seq<SubList>,
                                                   newRight: int, guarded: bool, lo: int, hi: int)
    requires 0 <= lo && hi < |s|
    requires AllWithin(rem, lo, hi) && AllWithin(neu, lo, hi) && Apart(rem, neu)
    ensures Permuted(s, ReassembleRight(s, rem, neu, newRight, guarded).0, lo, hi + 1)
    decreases |rem| + |neu|
  {
    if |rem| == 0 || |neu| == 0 || (guarded && rem[0].begin < neu[0].begin) {
      return;
    }
    var w := RightStep(Swaps(s, rem, neu, newRight));
    RightStepPermutes(Swaps(s, rem, neu, newRight), lo, hi);
    ReassembleRightPermutes(w.list, w.rem, w.neu, w.bound, guarded, lo, hi);
  }
}
