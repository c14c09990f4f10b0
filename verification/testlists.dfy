/**
 The lists of the source's partitioning tests. By PartitionParallelBoundary and
 PartitionBoundary a partition returns the first index of a range plus the number of its
 elements below the pivot; the counting lemmas count those elements, and the boundary lemmas
 combine the two into the index each test expects.
 */
module TestLists {
  import opened Lists
  import opened Lomuto
  import opened ParallelPartition

  /** `Test_partitionParallel_allthesame`: one element below 2. */
  lemma AllTheSameCount()
    ensures CountBelow([2, 4, 7, 3, 1, 9, 2, 2, 5, 2, 4], 2) == 1
  {
  }

  /** `Test_partitionParallel_remainder`: eight elements below 8. */
  lemma RemainderCount()
    ensures CountBelow([1, 4, 7, 3, 2, 9, 10, 8, 5, 6, 4], 8) == 8
  {
  }

  /** `Test_partitionParallel`: seven elements below 8. */
  lemma ParallelCount()
    ensures CountBelow([1, 4, 7, 3, 2, 9, 10, 8, 5, 6], 8) == 7
  {
  }

  /** `Test_partition` on positions 4 to 9 of [1, 3, 2, 4, 7, 9, 10, 8, 5, 6]: three below 8. */
  lemma PartitionCount()
    ensures CountBelow([1, 3, 2, 4, 7, 9, 10, 8, 5, 6][4..10], 8) == 3
  {
    assert [1, 3, 2, 4, 7, 9, 10, 8, 5, 6][4..10] == [7, 9, 10, 8, 5, 6];
  }

  /** Partitioning a whole list returns the number of its elements below the pivot. */
  lemma WholeListBoundary(s: seq<int>, blockSize: int, pivot: int, n: int)
    requires |s| > 0 && blockSize > 0 && CountBelow(s, pivot) == n
    ensures PartitionParallel(s, 0, |s| - 1, blockSize, pivot).1 == n
  {
    PartitionParallelBoundary(s, 0, |s| - 1, blockSize, pivot);
    assert s[0..|s|] == s;
  }

  /**
   `Test_partitionParallel_allthesame`: partitioning the whole list around 2 returns 1, for
   the test's block size 2 and for every other one.
   */
  lemma AllTheSameBoundary(s: seq<int>, blockSize: int)
    requires s == [2, 4, 7, 3, 1, 9, 2, 2, 5, 2, 4] && blockSize > 0
    ensures PartitionParallel(s, 0, |s| - 1, blockSize, 2).1 == 1
  {
    AllTheSameCount();
    WholeListBoundary(s, blockSize, 2, 1);
  }

  /** `Test_partitionParallel_remainder`: partitioning the whole list around 8 returns 8. */
  lemma RemainderBoundary(s: seq<int>, blockSize: int)
    requires s == [1, 4, 7, 3, 2, 9, 10, 8, 5, 6, 4] && blockSize > 0
    ensures PartitionParallel(s, 0, |s| - 1, blockSize, 8).1 == 8
  {
    RemainderCount();
    WholeListBoundary(s, blockSize, 8, 8);
  }

  /** `Test_partitionParallel`: partitioning the whole list around 8 returns 7. */
  lemma ParallelBoundary(s: seq<int>, blockSize: int)
    requires s == [1, 4, 7, 3, 2, 9, 10, 8, 5, 6] && blockSize > 0
    ensures PartitionParallel(s, 0, |s| - 1, blockSize, 8).1 == 7
  {
    ParallelCount();
    WholeListBoundary(s, blockSize, 8, 7);
  }

  /**
   The run of `partition` over positions 4 to 9 of a list holding 7, 9, 10, 8, 5, 6 there,
   around 8: it keeps 7, skips 9, 10 and 8, then swaps 5 and 6 to the store index.
   */
  lemma PartitionTestRun(s: seq<int>)
    requires |s| == 10 && s[4] == 7 && s[5] == 9 && s[6] == 10 && s[7] == 8 && s[8] == 5 && s[9] == 6
    ensures Partition(s, 4, 9, 8) == (s[5 := 5][6 := 6][8 := 9][9 := 10], 7)
  {
    PartitionTestKeepsAndSkips(s);
    PartitionTestSwaps(s);
    PartitionTestSwapped(s);
  }

  /** The last two steps of that run: 5 and then 6 are swapped to the store index. */
  lemma PartitionTestSwaps(s: seq<int>)
    requires |s| == 10 && s[4] == 7 && s[5] == 9 && s[6] == 10 && s[7] == 8 && s[8] == 5 && s[9] == 6
    ensures Scan(s, 4, 9, 8, 5, 8) == (Swap(Swap(s, 8, 5), 9, 6), 7)
  {
    var s1 := Swap(s, 8, 5);
    var s2 := Swap(s1, 9, 6);
    assert Scan(s, 4, 9, 8, 5, 8) == Scan(s1, 4, 9, 8, 6, 9);
    assert Scan(s1, 4, 9, 8, 6, 9) == Scan(s2, 4, 9, 8, 7, 10);
  }

  /** What the two swaps leave. */
  lemma PartitionTestSwapped(s: seq<int>)
    requires |s| == 10 && s[5] == 9 && s[6] == 10 && s[8] == 5 && s[9] == 6
    ensures Swap(Swap(s, 8, 5), 9, 6) == s[5 := 5][6 := 6][8 := 9][9 := 10]
  {
    var s2 := Swap(Swap(s, 8, 5), 9, 6);
    var e := s[5 := 5][6 := 6][8 := 9][9 := 10];
    assert forall k :: 0 <= k < 10 ==> s2[k] == e[k];
  }

  /** The first four steps of that run: 7 stays at the store index, and 9, 10 and 8 are skipped. */
  lemma PartitionTestKeepsAndSkips(s: seq<int>)
    requires |s| == 10 && s[4] == 7 && s[5] == 9 && s[6] == 10 && s[7] == 8 && s[8] == 5 && s[9] == 6
    ensures Partition(s, 4, 9, 8) == Scan(s, 4, 9, 8, 5, 8)
  {
    assert Swap(s, 4, 4) == s;
    assert Partition(s, 4, 9, 8) == Scan(s, 4, 9, 8, 5, 5);
    assert Scan(s, 4, 9, 8, 5, 5) == Scan(s, 4, 9, 8, 5, 6);
    assert Scan(s, 4, 9, 8, 5, 6) == Scan(s, 4, 9, 8, 5, 7);
  }

  /**
   `Test_partition`: partitioning positions 4 to 9 around 8 returns 4 + 3 = 7 and leaves the
   list the test expects.
   */
  lemma PartitionTestBoundary(s: seq<int>)
    requires s == [1, 3, 2, 4, 7, 9, 10, 8, 5, 6]
    ensures Partition(s, 4, 9, 8).1 == 7
    ensures Partition(s, 4, 9, 8).0 == [1, 3, 2, 4, 7, 5, 6, 8, 9, 10]
  {
    assert s[5 := 5][6 := 6][8 := 9][9 := 10] == [1, 3, 2, 4, 7, 5, 6, 8, 9, 10];
    PartitionTestRun(s);
  }
}
