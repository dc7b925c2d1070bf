/** partition_data_vectors (analysis/analysis_utilities.py): a positional,
    non-random split of feature vectors and labels into a training set, a test
    set and the positively labelled part of the test set. */
module Partitioner {
  import opened Wrappers

  /** Python's `int(x)` on a number: truncation toward zero. */
  function Truncate(x: real): (t: int)
    ensures 0.0 <= x ==> 0 <= t && t as real <= x < t as real + 1.0
    ensures x < 0.0 ==> t <= 0 && x <= t as real < x + 1.0
  {
    if x >= 0.0 then x.Floor else -((-x).Floor)
  }

  /** `int(fraction_for_training * dataset_size)`. */
  function TrainingSize(fraction: real, n: nat): (t: int)
    ensures 0.0 <= fraction ==> 0 <= t && t as real <= fraction * n as real < t as real + 1.0
  {
    Truncate(fraction * n as real)
  }

  /** A fraction in [0, 1] gives a training size between 0 and the dataset size. */
  lemma TrainingSizeInRange(fraction: real, n: nat)
    requires 0.0 <= fraction <= 1.0
    ensures 0 <= TrainingSize(fraction, n) <= n
  {
  }

  /** Python's reading of a slice bound `i` against a list of length `n`:
      a negative bound counts from the end, and bounds are clamped to [0, n]. */
  function SliceBound(i: int, n: nat): (b: nat)
    ensures b <= n
    ensures 0 <= i <= n ==> b == i
    ensures i < 0 && 0 <= n + i ==> b == n + i
    ensures i > n ==> b == n
    ensures n + i < 0 ==> b == 0
  {
    if i < 0 then (if i + n < 0 then 0 else i + n)
    else (if i > n then n else i)
  }

  /** Python's `s[lo:hi]`. */
  function Slice<T>(s: seq<T>, lo: int, hi: int): (r: seq<T>)
    ensures |r| <= |s|
    ensures 0 <= lo <= hi <= |s| ==> r == s[lo..hi]
    ensures 0 <= hi <= lo ==> r == []
    ensures 0 <= lo <= |s| < hi ==> r == s[lo..]
  {
    var a := SliceBound(lo, |s|);
    var b := SliceBound(hi, |s|);
    if a <= b then s[a..b] else []
  }

  /** Python's `s[lo:]`. */
  function SliceFrom<T>(s: seq<T>, lo: int): (r: seq<T>)
    ensures |r| <= |s|
    ensures lo == 0 ==> r == s
    ensures 0 <= lo <= |s| ==> r == s[lo..]
    ensures lo < 0 ==> |r| == if -lo <= |s| then -lo else |s|
    ensures forall k :: 0 <= k < |r| ==> r[k] == s[|s| - |r| + k]
  {
    s[SliceBound(lo, |s|)..]
  }

  /** The six lists partition_data_vectors returns. */
  datatype Split<V> = Split(
    trainX: seq<V>, trainY: seq<real>,
    testX: seq<V>, testY: seq<real>,
    positiveX: seq<V>, positiveY: seq<real>)

  /** `[vector for i, vector in enumerate(xs) if ys[i] == 1]`. */
  function SelectPositive<V>(xs: seq<V>, ys: seq<real>): (r: seq<V>)
    requires |xs| <= |ys|
    ensures |r| <= |xs|
    ensures forall k :: 0 <= k < |r| ==> r[k] in xs
  {
    if xs == [] then []
    else SelectPositive(xs[..|xs| - 1], ys) + (if ys[|xs| - 1] == 1.0 then [xs[|xs| - 1]] else [])
  }

  /** The positions below `n` whose label is 1, in increasing order. */
  function PositivePositions(ys: seq<real>, n: nat): (p: seq<nat>)
    requires n <= |ys|
    ensures |p| <= n
    ensures forall k :: 0 <= k < |p| ==> p[k] < n && ys[p[k]] == 1.0
    ensures forall k, l :: 0 <= k < l < |p| ==> p[k] < p[l]
    ensures forall i :: 0 <= i < n && ys[i] == 1.0 ==> i in p
  {
    if n == 0 then []
    else PositivePositions(ys, n - 1) + (if ys[n - 1] == 1.0 then [n - 1] else [])
  }

  /** The elements of `xs` at positions `p`, in the order of `p`. */
  function Pick<V>(xs: seq<V>, p: seq<nat>): (r: seq<V>)
    requires forall k :: 0 <= k < |p| ==> p[k] < |xs|
    ensures |r| == |p| && forall k :: 0 <= k < |p| ==> r[k] == xs[p[k]]
  {
    seq(|p|, k requires 0 <= k < |p| => xs[p[k]])
  }

  /** The positive test set is exactly the test vectors whose label is 1, in
      their order: it picks the increasing list of all positions labelled 1. */
  lemma {:induction false} SelectPositiveIsSubsequence<V>(xs: seq<V>, ys: seq<real>)
    requires |xs| <= |ys|
    ensures SelectPositive(xs, ys) == Pick(xs, PositivePositions(ys, |xs|))
  {
    if xs != [] {
      var n := |xs| - 1;
      SelectPositiveIsSubsequence(xs[..n], ys);
      var p := PositivePositions(ys, n);
      assert Pick(xs[..n], p) == Pick(xs, p);
      if ys[n] == 1.0 {
        assert Pick(xs, p + [n]) == Pick(xs, p) + [xs[n]];
      }
    }
  }

  /** partition_data_vectors. The comprehension that builds the positive test
      set indexes the test labels by test-vector position, so it raises
      IndexError when there are fewer test labels than test vectors. */
  function PartitionDataVectors<V>(vectors: seq<V>, labels: seq<real>, fraction: real): (r: Result<Split<V>>)
    ensures r.Failure? ==> r.error == IndexError
    ensures var n := |vectors|; var t := TrainingSize(fraction, n);
      0 <= t <= n ==> (r.Failure? <==> |labels| < (if t == n then n else n - t))
    ensures r.Success? ==>
      && |r.value.positiveY| == |r.value.positiveX| <= |r.value.testX|
      && forall k :: 0 <= k < |r.value.positiveY| ==> r.value.positiveY[k] == 1.0
  {
    var n := |vectors|;
    var t := TrainingSize(fraction, n);
    var testSize := n - t;
    var testX := SliceFrom(vectors, -testSize);
    var testY := SliceFrom(labels, -testSize);
    if |testY| < |testX| then Failure(IndexError)
    else
      var positiveX := SelectPositive(testX, testY);
      SelectPositiveIsSubsequence(testX, testY);
      Success(Split(Slice(vectors, 0, t), Slice(labels, 0, t), testX, testY,
                    positiveX, seq(|positiveX|, _ => 1.0)))
  }

  /** With a fraction in [0, 1] and one label per vector, T = int(fraction * N):
      the training set is the first T entries; the test set is the remaining
      N - T when T < N, disjoint from the training set and covering the rest,
      but the whole list when T == N (the slice `[-0:]`); the positive test set
      is the in-order subsequence of test vectors labelled 1, with labels 1. */
  lemma PartitionLaws<V>(vectors: seq<V>, labels: seq<real>, fraction: real)
    requires 0.0 <= fraction <= 1.0
    requires |labels| == |vectors|
    ensures var n := |vectors|;
      var t := TrainingSize(fraction, n);
      var r := PartitionDataVectors(vectors, labels, fraction);
      && 0 <= t <= n
      && r.Success?
      && r.value.trainX == vectors[..t] && r.value.trainY == labels[..t]
      && (t < n ==> r.value.testX == vectors[t..] && r.value.testY == labels[t..]
                    && r.value.trainX + r.value.testX == vectors)
      && (t == n ==> r.value.testX == vectors && r.value.testY == labels)
      && r.value.positiveX == Pick(r.value.testX, PositivePositions(r.value.testY, |r.value.testX|))
      && r.value.positiveY == seq(|r.value.positiveX|, _ => 1.0)
  {
    TrainingSizeInRange(fraction, |vectors|);
    var r := PartitionDataVectors(vectors, labels, fraction);
    SelectPositiveIsSubsequence(r.value.testX, r.value.testY);
  }

  /** Ten one-column vectors split at 0.7: the last three are the test set and
      the two of them labelled 1 form the positive test set. */
  lemma PartitionTenAtSevenTenths()
    ensures var r := PartitionDataVectors(
              [[1.0], [2.0], [3.0], [4.0], [5.0], [6.0], [7.0], [8.0], [9.0], [10.0]],
              [0.0, 0.0, 0.0, 1.0, 0.0, 1.0, 0.0, 0.0, 1.0, 1.0], 0.7);
      && r.Success?
      && r.value.trainX == [[1.0], [2.0], [3.0], [4.0], [5.0], [6.0], [7.0]]
      && r.value.testX == [[8.0], [9.0], [10.0]]
      && r.value.testY == [0.0, 1.0, 1.0]
      && r.value.positiveX == [[9.0], [10.0]]
      && r.value.positiveY == [1.0, 1.0]
  {
    var vectors := [[1.0], [2.0], [3.0], [4.0], [5.0], [6.0], [7.0], [8.0], [9.0], [10.0]];
    var labels := [0.0, 0.0, 0.0, 1.0, 0.0, 1.0, 0.0, 0.0, 1.0, 1.0];
    assert TrainingSize(0.7, 10) == 7;
    var testY := [0.0, 1.0, 1.0];
    assert SliceFrom(vectors, -3) == [[8.0], [9.0], [10.0]];
    assert SliceFrom(labels, -3) == testY;
    assert [[8.0], [9.0], [10.0]][..2] == [[8.0], [9.0]];
    assert [[8.0], [9.0]][..1] == [[8.0]];
    assert [[8.0]][..0] == [];
    assert SelectPositive([[8.0]], testY) == [];
    assert SelectPositive([[8.0], [9.0]], testY) == [[9.0]];
    assert SelectPositive([[8.0], [9.0], [10.0]], testY) == [[9.0], [10.0]];
  }
}
