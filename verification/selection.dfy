/**
 `selectTopFaA`: quickselect driven by the block-parallel partitioning round. Each round
 draws a pivot index in the current bound [left, right], runs the claim loop and both
 reassembly loops (without the guards `partitionParallel` has), then walks from the pivot
 index towards `top` over the run of elements equal to the pivot value, either reaching
 `top` or narrowing the bound to the index where the run ends.
 */
module Selection {
  import opened Wrappers
  import opened Blocks
  import opened Lists
  import opened Allocator
  import opened Claims
  import opened Reassembly
  import opened ParallelPartition

  /** `left + rand.Intn(right - left + 1)`, with the random number supplied as a draw. */
  function PivotIndex(left: int, right: int, draw: nat): (p: int)
    requires left <= right
    ensures left <= p <= right
  {
    left + draw % (right - left + 1)
  }

  /**
   A round's rearrangement: the claim loop, then both reassembly loops run to the end
   without the guards. Only the bound is rearranged.
   */
  function SelectRound(s: seq<int>, left: int, right: int, blockSize: int, pivot: int): (t: seq<int>)
    requires 0 <= left <= right < |s| && blockSize > 0
    ensures Permuted(s, t, left, right + 1)
  {
    var a := New(|s|, left, right, blockSize);
    var c := Claimed(s, a, pivot);
    var nl, nr := Reverse(c.neutralLeft), Reverse(c.neutralRight);
    WithinList(c, left, right);
    var l := ReassembleLeft(c.list, RemainingLeft(c), nl, left, false);
    ReassembleLeftPermutes(c.list, RemainingLeft(c), nl, left, false, left, right);
    var r := ReassembleRight(l.0, RemainingRight(c), nr, right, false);
    ReassembleRightPermutes(l.0, RemainingRight(c), nr, right, false, left, right);
    r.0
  }

  /** Blocks inside the bound are inside the list. */
  lemma WithinList(c: Claim, left: int, right: int)
    requires 0 <= left && right < |c.list|
    requires AllWithin(RemainingLeft(c), left, right) && AllWithin(Reverse(c.neutralLeft), left, right)
    requires AllWithin(RemainingRight(c), left, right) && AllWithin(Reverse(c.neutralRight), left, right)
    ensures AllWithin(RemainingLeft(c), 0, |c.list| - 1) && AllWithin(Reverse(c.neutralLeft), 0, |c.list| - 1)
    ensures AllWithin(RemainingRight(c), 0, |c.list| - 1) && AllWithin(Reverse(c.neutralRight), 0, |c.list| - 1)
  {
    AllWithinWiden(RemainingLeft(c), left, right, 0, |c.list| - 1);
    AllWithinWiden(Reverse(c.neutralLeft), left, right, 0, |c.list| - 1);
    AllWithinWiden(RemainingRight(c), left, right, 0, |c.list| - 1);
    AllWithinWiden(Reverse(c.neutralRight), left, right, 0, |c.list| - 1);
  }

  /** Where a walk over a run of elements equal to the pivot value ends. */
  datatype Walk = Found | Stopped(at: int)

  /**
   The walk `for list[pivotIndex] == pivotValue { if top == pivotIndex { return }; pivotIndex++ }`
   from p up to top: Found when the run reaches top, otherwise the first index of the run's
   end, which is at most top.
   */
  function WalkUp(t: seq<int>, p: int, top: int, v: int): (w: Walk)
    requires 0 <= p <= top < |t|
    ensures w.Found? <==> forall k :: p <= k <= top ==> t[k] == v
    ensures w.Stopped? ==> p <= w.at <= top && t[w.at] != v && forall k :: p <= k < w.at ==> t[k] == v
    decreases top - p
  {
    if t[p] != v then Stopped(p)
    else if top == p then Found
    else WalkUp(t, p + 1, top, v)
  }

  /** The mirror image, `pivotIndex--` from p down to top. */
  function WalkDown(t: seq<int>, p: int, top: int, v: int): (w: Walk)
    requires 0 <= top <= p < |t|
    ensures w.Found? <==> forall k :: top <= k <= p ==> t[k] == v
    ensures w.Stopped? ==> top <= w.at <= p && t[w.at] != v && forall k :: w.at < k <= p ==> t[k] == v
    decreases p - top
  {
    if t[p] != v then Stopped(p)
    else if top == p then Found
    else WalkDown(t, p - 1, top, v)
  }

  /** The walk up reads only the positions from p to top. */
  lemma {:induction false} WalkUpReadsOnlyRun(t: seq<int>, u: seq<int>, p: int, top: int, v: int)
    requires 0 <= p <= top < |t| && top < |u|
    requires forall k :: p <= k <= top ==> t[k] == u[k]
    ensures WalkUp(t, p, top, v) == WalkUp(u, p, top, v)
    decreases top - p
  {
    if t[p] != v || top == p {
    } else {
      WalkUpReadsOnlyRun(t, u, p + 1, top, v);
    }
  }

  /** The walk down reads only the positions from top to p. */
  lemma {:induction false} WalkDownReadsOnlyRun(t: seq<int>, u: seq<int>, p: int, top: int, v: int)
    requires 0 <= top <= p < |t| && p < |u|
    requires forall k :: top <= k <= p ==> t[k] == u[k]
    ensures WalkDown(t, p, top, v) == WalkDown(u, p, top, v)
    decreases p - top
  {
    if t[p] != v || top == p {
    } else {
      WalkDownReadsOnlyRun(t, u, p - 1, top, v);
    }
  }

  /** What one round ends with: `top` found, or the list and the narrowed bound for the next round. */
  datatype Outcome = Done(list: seq<int>, index: int) | Continue(list: seq<int>, left: int, right: int)

  /**
   One round on a bound of two or more positions: a pivot drawn from the bound, the
   rearrangement, then the check against `top`. A returned index is always `top`, and a
   narrowed bound still holds `top`.
   */
  function SelectStep(s: seq<int>, left: int, right: int, top: int, blockSize: int, draw: nat): (o: Outcome)
    requires 0 <= left <= top <= right < |s| && left < right && blockSize > 0
    ensures Permuted(s, o.list, left, right + 1)
    ensures o.Done? ==> o.index == top
    ensures o.Continue? ==> left <= o.left <= top <= o.right <= right
  {
    var p := PivotIndex(left, right, draw);
    var v := s[p];
    var t := SelectRound(s, left, right, blockSize, v);
    if top == p then Done(t, p)
    else if top > p then
      match WalkUp(t, p, top, v)
      case Found => Done(t, top)
      case Stopped(q) => Continue(t, q, right)
    else
      match WalkDown(t, p, top, v)
      case Found => Done(t, top)
      case Stopped(q) => Continue(t, left, q)
  }

  /** The outcome of a whole selection: the rearranged list and the index returned. */
  datatype Selected = Selected(list: seq<int>, index: int)

  /**
   The outer `for` loop from the bound [left, right], one draw per round. The source loops
   until it returns; here the draws bound the number of rounds, and running out of them
   gives None. Whatever it returns is `top`, and the list is only rearranged in the bound.
   */
  function SelectFrom(s: seq<int>, left: int, right: int, top: int, blockSize: int, draws: seq<nat>): (r: Option<Selected>)
    requires 0 <= left <= top <= right < |s| && blockSize > 0
    ensures r.Some? ==> r.value.index == top && Permuted(s, r.value.list, left, right + 1)
    decreases |draws|
  {
    if left == right then Some(Selected(s, left))
    else if |draws| == 0 then None
    else
      match SelectStep(s, left, right, top, blockSize, draws[0])
      case Done(t, i) => Some(Selected(t, i))
      case Continue(t, l, r) =>
        var res := SelectFrom(t, l, r, top, blockSize, draws[1..]);
        if res.Some? then
          PermutedTrans(s, t, res.value.list, left, right + 1, l, r + 1);
          res
        else
          res
  }

  /** `selectTopFaA(list, top, blockSize)`, with `0 <= top < len(list)`. */
  function SelectTop(s: seq<int>, top: int, blockSize: int, draws: seq<nat>): (r: Option<Selected>)
    requires 0 <= top < |s| && blockSize > 0
    ensures r.Some? ==> r.value.index == top && |r.value.list| == |s|
    ensures r.Some? ==> multiset(r.value.list) == multiset(s)
  {
    SelectFrom(s, 0, |s| - 1, top, blockSize, draws)
  }

  /**
   On a list whose elements are all equal (the source's test uses ten 1s), the first round
   finds `top`, whatever the pivot drawn: the rearranged list is the same constant list,
   so the walk from the pivot index reaches `top`.
   */
  lemma AllEqualFoundInFirstRound(s: seq<int>, top: int, blockSize: int, draws: seq<nat>, v: int)
    requires 0 <= top < |s| && blockSize > 0 && |draws| >= 1
    requires forall k :: 0 <= k < |s| ==> s[k] == v
    ensures SelectTop(s, top, blockSize, draws).Some?
    ensures SelectTop(s, top, blockSize, draws).value.index == top
  {
    if |s| > 1 {
      var p := PivotIndex(0, |s| - 1, draws[0]);
      var t := SelectRound(s, 0, |s| - 1, blockSize, s[p]);
      PermutationOfConstant(s, t, v);
      if top > p {
        assert WalkUp(t, p, top, s[p]).Found?;
      } else if top < p {
        assert WalkDown(t, p, top, s[p]).Found?;
      }
      assert SelectStep(s, 0, |s| - 1, top, blockSize, draws[0]).Done?;
    }
  }
}
