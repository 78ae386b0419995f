/**
  The reassignment step as the original code behaves when a cluster has no
  members. The mean of an empty selection is a NaN vector, every distance to
  it is NaN, and numpy's argmin treats NaN as the minimum and returns the
  first NaN it meets. So one empty cluster draws every row to the lowest
  empty index; after that all labels agree, every other cluster is empty,
  and each pass moves all rows again: with two or more clusters the loop in
  `fit` never sees two equal label vectors.

  The model in module KMeans never selects an empty slot instead (see
  `KMeans.Step`).
 */
module AsWritten {
  import opened Vectors
  import opened KMeans

  /** Index of the first empty (NaN) slot, or `|cs|` when there is none. */
  function FirstEmpty(cs: seq<Centroid>): (e: nat)
    ensures e <= |cs|
    ensures forall i :: 0 <= i < e ==> cs[i].Mean?
    ensures e < |cs| ==> cs[e].Empty?
    decreases |cs|
  {
    if |cs| == 0 then 0 else if cs[0].Empty? then 0 else 1 + FirstEmpty(cs[1..])
  }

  /**
    numpy's argmin over one column of the distance matrix: the first NaN
    entry if there is one (an empty slot), otherwise the first minimum.
   */
  function ArgMinWithNaN(p: Vector, cs: seq<Centroid>): (r: nat)
    requires |cs| >= 1 && CentroidDims(cs, |p|)
    ensures r < |cs|
    ensures (exists j :: 0 <= j < |cs| && cs[j].Empty?) ==>
              cs[r].Empty? && forall j :: 0 <= j < r ==> cs[j].Mean?
    ensures (forall j :: 0 <= j < |cs| ==> cs[j].Mean?) ==> IsFirstNearest(p, cs, r)
  {
    var e := FirstEmpty(cs);
    if e < |cs| then e else Nearest(p, cs).value
  }

  /** One pass of the loop as written: centroids, then numpy's argmin per row. */
  function StepAsWritten(data: seq<Vector>, d: nat, k: nat, labels: seq<int>): (next: seq<int>)
    requires AllDim(data, d) && k >= 1 && ValidLabels(labels, |data|, k)
    ensures ValidLabels(next, |data|, k)
  {
    var cs := CentroidsOf(data, d, k, labels);
    AssignAfterCentroids(data, d, k, labels);
    seq(|data|, i requires 0 <= i < |data| => (assert data[i] in data; ArgMinWithNaN(data[i], cs)))
  }

  /** The `while True` loop as written, cut off after `maxPasses` passes. */
  function LloydAsWritten(data: seq<Vector>, d: nat, k: nat, labels: seq<int>,
                          passes: nat, maxPasses: nat): (r: FitResult)
    requires AllDim(data, d) && k >= 1 && ValidLabels(labels, |data|, k)
    ensures ValidLabels(r.labels, |data|, k)
    ensures r.Converged? ==> StepAsWritten(data, d, k, r.labels) == r.labels && passes < r.passes <= maxPasses
    ensures r.NotConverged? ==> r.passes == (if passes >= maxPasses then passes else maxPasses)
    decreases maxPasses - passes
  {
    if passes >= maxPasses then NotConverged(labels, passes)
    else
      var next := StepAsWritten(data, d, k, labels);
      if next == labels then Converged(next, CentroidsOf(data, d, k, labels), passes + 1)
      else LloydAsWritten(data, d, k, next, passes + 1, maxPasses)
  }

  /** No row carries label `j`. */
  predicate Unused(labels: seq<int>, j: int) {
    forall i :: 0 <= i < |labels| ==> labels[i] != j
  }

  /** Some cluster index in `[0, k)` has no rows. */
  predicate HasEmptyCluster(labels: seq<int>, k: nat) {
    exists j :: 0 <= j < k && Unused(labels, j)
  }

  /**
    As written, one empty cluster captures every row: all new labels equal
    the lowest empty index, which no row carried before, so the labels change.
   */
  lemma EmptyClusterCapturesEveryRow(data: seq<Vector>, d: nat, k: nat, labels: seq<int>)
    requires AllDim(data, d) && k >= 1 && ValidLabels(labels, |data|, k) && |data| >= 1
    requires HasEmptyCluster(labels, k)
    ensures var next := StepAsWritten(data, d, k, labels);
      && (forall i :: 0 <= i < |data| ==> next[i] == next[0])
      && 0 <= next[0] < k && Unused(labels, next[0])
      && next != labels
  {
    var cs := CentroidsOf(data, d, k, labels);
    var j :| 0 <= j < k && Unused(labels, j);
    assert |Members(data, labels, j)| == 0 by {
      if |Members(data, labels, j)| > 0 {
        assert Members(data, labels, j)[0] in Members(data, labels, j);
      }
    }
    assert cs[j].Empty?;
    var e := FirstEmpty(cs);
    assert e < |cs|;
    assert |Members(data, labels, e)| == 0;
    var next := StepAsWritten(data, d, k, labels);
    forall i | 0 <= i < |data|
      ensures next[i] == e
    {
      assert data[i] in data;
    }
    assert next[0] != labels[0];
  }

  /** Labels that all agree leave every other cluster empty once there are two or more. */
  lemma UniformLabelsLeaveEmptyCluster(labels: seq<int>, k: nat, a: int)
    requires k >= 2 && forall i :: 0 <= i < |labels| ==> labels[i] == a
    ensures HasEmptyCluster(labels, k)
  {
    var j := if a == 0 then 1 else 0;
    assert Unused(labels, j);
  }

  /**
    Once a cluster is empty, the loop as written never converges: on every
    pass budget it runs out of passes, so the unbounded loop never exits.
   */
  lemma {:induction false} AsWrittenNeverConverges(data: seq<Vector>, d: nat, k: nat, labels: seq<int>,
                                                    passes: nat, maxPasses: nat)
    requires AllDim(data, d) && k >= 2 && ValidLabels(labels, |data|, k) && |data| >= 1
    requires HasEmptyCluster(labels, k)
    ensures LloydAsWritten(data, d, k, labels, passes, maxPasses).NotConverged?
    decreases maxPasses - passes
  {
    if passes < maxPasses {
      var next := StepAsWritten(data, d, k, labels);
      EmptyClusterCapturesEveryRow(data, d, k, labels);
      UniformLabelsLeaveEmptyCluster(next, k, next[0]);
      AsWrittenNeverConverges(data, d, k, next, passes + 1, maxPasses);
    }
  }

  /**
    The smallest input that shows it: one row, two clusters, initial label 0.
    As written the labels alternate between [1] and [0] and the loop never
    stops.
   */
  lemma OneRowTwoClustersAsWritten(maxPasses: nat)
    ensures StepAsWritten([[0.0]], 1, 2, [0]) == [1]
    ensures StepAsWritten([[0.0]], 1, 2, [1]) == [0]
    ensures LloydAsWritten([[0.0]], 1, 2, [0], 0, maxPasses).NotConverged?
  {
    var data: seq<Vector> := [[0.0]];
    assert Unused([0], 1) && Unused([1], 0);
    EmptyClusterCapturesEveryRow(data, 1, 2, [0]);
    EmptyClusterCapturesEveryRow(data, 1, 2, [1]);
    AsWrittenNeverConverges(data, 1, 2, [0], 0, maxPasses);
  }

  /** On the same input, with empty slots never selected, the first pass already reproduces [0]. */
  lemma OneRowTwoClustersCorrected(maxPasses: nat)
    requires maxPasses >= 1
    ensures Step([[0.0]], 1, 2, [0]) == [0]
    ensures Lloyd([[0.0]], 1, 2, [0], 0, maxPasses).Converged?
  {
  }
}
