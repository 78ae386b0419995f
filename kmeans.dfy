/**
  Lloyd's k-means refinement loop over a fixed data set of `n` points of
  dimension `d`: an initial labelling, centroid computation, nearest-centroid
  reassignment, and the loop that alternates the last two until the labels
  stop changing.

  The number of clusters `k` is the only state of the original object and is
  never updated after construction, so it is passed as a parameter here.
 */
module KMeans {
  import opened Vectors

  datatype Option<+T> = None | Some(value: T)

  /**
    One slot of the centroid list. A cluster with no members has no mean;
    it is `Empty` here, and an `Empty` slot is never chosen as nearest.
   */
  datatype Centroid = Empty | Mean(at: Vector)

  /**
    Outcome of a bounded run of the refinement loop: the labels and the
    centroids that produced them once two consecutive label vectors agree,
    or the latest labels when the pass budget ran out first.
   */
  datatype FitResult =
    | Converged(labels: seq<int>, centroids: seq<Centroid>, passes: nat)
    | NotConverged(labels: seq<int>, passes: nat)

  /** A data set: `n` rows of `d >= 1` columns. */
  predicate IsDataSet(data: seq<Vector>, d: nat) {
    d >= 1 && AllDim(data, d)
  }

  /** One label per row, each a cluster index in `[0, k)`. */
  predicate ValidLabels(labels: seq<int>, n: nat, k: nat) {
    |labels| == n && forall i :: 0 <= i < n ==> 0 <= labels[i] < k
  }

  /** Every non-empty centroid has dimension `d`. */
  predicate CentroidDims(cs: seq<Centroid>, d: nat) {
    forall j :: 0 <= j < |cs| && cs[j].Mean? ==> |cs[j].at| == d
  }

  // ---------------------------------------------------------------------------
  // Initial labelling
  // ---------------------------------------------------------------------------

  /**
    A uniform draw from `{0, ..., k-1}` for each of the `n` rows. The random
    source is injected: `draw(i)` is the raw value drawn for row `i`.
   */
  function RandomAssignment(n: nat, k: nat, draw: nat -> int): (labels: seq<int>)
    requires k >= 1
    ensures ValidLabels(labels, n, k)
  {
    seq(n, i requires 0 <= i < n => draw(i) % k)
  }

  /** Every labelling in range is produced by some draw, so the model loses no initial labelling. */
  lemma EveryLabellingIsDrawn(labels: seq<int>, k: nat)
    requires k >= 1 && ValidLabels(labels, |labels|, k)
    ensures RandomAssignment(|labels|, k, (i: nat) => if i < |labels| then labels[i] else 0) == labels
  {
  }

  // ---------------------------------------------------------------------------
  // Centroid computation
  // ---------------------------------------------------------------------------

  /** The rows whose label is `j`, in row order (the boolean mask `labels == j`). */
  function Members(data: seq<Vector>, labels: seq<int>, j: int): (ms: seq<Vector>)
    requires |labels| == |data|
    ensures forall i :: 0 <= i < |data| && labels[i] == j ==> data[i] in ms
    ensures forall m :: m in ms ==> exists i :: 0 <= i < |data| && labels[i] == j && data[i] == m
    decreases |data|
  {
    if |data| == 0 then []
    else
      var n := |data| - 1;
      Members(data[..n], labels[..n], j) + (if labels[n] == j then [data[n]] else [])
  }

  /** Component-wise arithmetic mean of `ps`, or `Empty` when there is nothing to average. */
  function MeanOf(ps: seq<Vector>, d: nat): (c: Centroid)
    requires AllDim(ps, d)
    ensures c.Empty? <==> |ps| == 0
    ensures c.Mean? ==> |c.at| == d
  {
    if |ps| == 0 then Empty
    else Mean(seq(d, c requires 0 <= c < d => SumAt(ps, c) / (|ps| as real)))
  }

  /** The centroid list: slot `j` is the mean of the rows labelled `j`. */
  function CentroidsOf(data: seq<Vector>, d: nat, k: nat, labels: seq<int>): (cs: seq<Centroid>)
    requires AllDim(data, d) && |labels| == |data|
    ensures |cs| == k && CentroidDims(cs, d)
    ensures forall j :: 0 <= j < k ==> (cs[j].Mean? <==> exists i :: 0 <= i < |data| && labels[i] == j)
  {
    var cs := seq(k, j requires 0 <= j < k => MeanOf(Members(data, labels, j), d));
    assert forall j :: 0 <= j < k && |Members(data, labels, j)| > 0 ==>
      Members(data, labels, j)[0] in Members(data, labels, j);
    cs
  }

  /**
    Builds the centroid list one cluster index at a time, appending the mean
    of the rows that carry that index. Labels outside `[0, k)` select no
    cluster and so take part in no mean.
   */
  method CalculateCentroids(data: seq<Vector>, d: nat, k: nat, labels: seq<int>)
    returns (centroids: seq<Centroid>)
    requires AllDim(data, d) && |labels| == |data|
    ensures |centroids| == k
    ensures forall j :: 0 <= j < k ==> centroids[j] == MeanOf(Members(data, labels, j), d)
    ensures centroids == CentroidsOf(data, d, k, labels)
  {
    centroids := [];
    for j := 0 to k
      invariant |centroids| == j
      invariant forall i :: 0 <= i < j ==> centroids[i] == MeanOf(Members(data, labels, i), d)
    {
      var members := Members(data, labels, j);
      centroids := centroids + [MeanOf(members, d)];
    }
  }

  /**
    Membership in cluster `j` depends only on which rows carry label `j` and
    on those rows' values: relabelling or moving any other row leaves it alone.
   */
  lemma {:induction false} MembersLocal(data: seq<Vector>, labels: seq<int>,
                                         data': seq<Vector>, labels': seq<int>, j: int)
    requires |labels| == |data| == |data'| == |labels'|
    requires forall i :: 0 <= i < |data| ==> (labels[i] == j <==> labels'[i] == j)
    requires forall i :: 0 <= i < |data| && labels[i] == j ==> data[i] == data'[i]
    ensures Members(data, labels, j) == Members(data', labels', j)
    decreases |data|
  {
    if |data| > 0 {
      var n := |data| - 1;
      MembersLocal(data[..n], labels[..n], data'[..n], labels'[..n], j);
    }
  }

  /** Centroid `j` is computed from the rows labelled `j` and from nothing else. */
  lemma CentroidLocal(data: seq<Vector>, labels: seq<int>,
                      data': seq<Vector>, labels': seq<int>, d: nat, k: nat, j: nat)
    requires AllDim(data, d) && AllDim(data', d)
    requires |labels| == |data| == |data'| == |labels'| && j < k
    requires forall i :: 0 <= i < |data| ==> (labels[i] == j <==> labels'[i] == j)
    requires forall i :: 0 <= i < |data| && labels[i] == j ==> data[i] == data'[i]
    ensures CentroidsOf(data, d, k, labels)[j] == CentroidsOf(data', d, k, labels')[j]
  {
    MembersLocal(data, labels, data', labels', j);
  }

  /** When every row carries label `j`, cluster `j` is the whole data set, in order. */
  lemma {:induction false} MembersOfUniformLabels(data: seq<Vector>, labels: seq<int>, j: int)
    requires |labels| == |data|
    requires forall i :: 0 <= i < |labels| ==> labels[i] == j
    ensures Members(data, labels, j) == data
    decreases |data|
  {
    if |data| > 0 {
      var n := |data| - 1;
      MembersOfUniformLabels(data[..n], labels[..n], j);
      assert data == data[..n] + [data[n]];
    }
  }

  /** The mean of copies of one point is that point (a cluster of identical rows). */
  lemma MeanOfIdentical(ps: seq<Vector>, d: nat, q: Vector)
    requires |q| == d && |ps| > 0
    requires forall i :: 0 <= i < |ps| ==> ps[i] == q
    ensures AllDim(ps, d) && MeanOf(ps, d) == Mean(q)
  {
    var n := |ps| as real;
    forall c | 0 <= c < d
      ensures SumAt(ps, c) / n == q[c]
    {
      SumAtConstant(ps, c, q[c]);
    }
  }

  /** Each component of a mean lies between the smallest and the largest value averaged. */
  lemma MeanWithinBounds(ps: seq<Vector>, d: nat, c: nat, lo: real, hi: real)
    requires AllDim(ps, d) && |ps| > 0 && c < d
    requires forall i :: 0 <= i < |ps| ==> lo <= ps[i][c] <= hi
    ensures lo <= MeanOf(ps, d).at[c] <= hi
  {
    SumAtBounds(ps, c, lo, hi);
    DivBounds(SumAt(ps, c), |ps| as real, lo, hi);
  }

  // ---------------------------------------------------------------------------
  // Nearest-centroid reassignment
  // ---------------------------------------------------------------------------

  /**
    `j` names a non-empty centroid at minimal squared distance from `p`, and
    every non-empty centroid before it is strictly farther: the first minimum.
   */
  predicate IsFirstNearest(p: Vector, cs: seq<Centroid>, j: int)
    requires CentroidDims(cs, |p|)
  {
    && 0 <= j < |cs| && cs[j].Mean?
    && (forall i :: 0 <= i < |cs| && cs[i].Mean? ==> SqDist(p, cs[j].at) <= SqDist(p, cs[i].at))
    && (forall i :: 0 <= i < j && cs[i].Mean? ==> SqDist(p, cs[j].at) < SqDist(p, cs[i].at))
  }

  /**
    One column of the distance matrix: the squared distance from `p` to each
    centroid slot, `None` for an empty slot.
   */
  function DistanceColumn(p: Vector, cs: seq<Centroid>): (col: seq<Option<real>>)
    requires CentroidDims(cs, |p|)
    ensures |col| == |cs|
    ensures forall j :: 0 <= j < |cs| ==> (col[j].None? <==> cs[j].Empty?)
    ensures forall j :: 0 <= j < |cs| && col[j].Some? ==> col[j].value >= 0.0
  {
    seq(|cs|, j requires 0 <= j < |cs| => if cs[j].Mean? then Some(SqDist(p, cs[j].at)) else None)
  }

  /** `j` holds the smallest present value of `col`, and it is the first such. */
  predicate IsFirstMin(col: seq<Option<real>>, j: int) {
    && 0 <= j < |col| && col[j].Some?
    && (forall i :: 0 <= i < |col| && col[i].Some? ==> col[j].value <= col[i].value)
    && (forall i :: 0 <= i < j && col[i].Some? ==> col[j].value < col[i].value)
  }

  /**
    Argmin of a distance column, scanning in index order and replacing the
    best so far only on a strictly smaller value, so that a tie goes to the
    lowest index. Absent entries are skipped; `None` when all are absent.
   */
  function ArgMin(col: seq<Option<real>>): (r: Option<nat>)
    ensures r.None? <==> forall j :: 0 <= j < |col| ==> col[j].None?
    ensures r.Some? ==> IsFirstMin(col, r.value)
    decreases |col|
  {
    if |col| == 0 then None
    else
      var last := |col| - 1;
      var best := ArgMin(col[..last]);
      assert forall i :: 0 <= i < last ==> col[..last][i] == col[i];
      if col[last].None? then best
      else if best.None? then Some(last)
      else if col[last].value < col[best.value].value then Some(last)
      else best
  }

  /** At most one index is the first minimum, so `ArgMin` is characterised by it. */
  lemma ArgMinIsTheFirstMin(col: seq<Option<real>>, j: int)
    ensures ArgMin(col) == Some(j) <==> IsFirstMin(col, j)
  {
  }

  /**
    When two slots share the smallest distance, the later one is not chosen:
    the result is at or before the earlier one.
   */
  lemma TieGoesToLowerIndex(col: seq<Option<real>>, i: nat, j: nat)
    requires i < j < |col| && col[i].Some? && col[i] == col[j]
    requires forall x :: 0 <= x < |col| && col[x].Some? ==> col[i].value <= col[x].value
    ensures ArgMin(col).Some? && ArgMin(col).value <= i
  {
  }

  /** The first minimum of the distance column is the first nearest centroid. */
  lemma FirstMinOfColumn(p: Vector, cs: seq<Centroid>, j: int)
    requires CentroidDims(cs, |p|)
    ensures IsFirstMin(DistanceColumn(p, cs), j) <==> IsFirstNearest(p, cs, j)
  {
    var col := DistanceColumn(p, cs);
    if IsFirstMin(col, j) {
      forall i | 0 <= i < |cs| && cs[i].Mean?
        ensures SqDist(p, cs[j].at) <= SqDist(p, cs[i].at)
      {
        assert col[i].Some?;
      }
      forall i | 0 <= i < j && cs[i].Mean?
        ensures SqDist(p, cs[j].at) < SqDist(p, cs[i].at)
      {
        assert col[i].Some?;
      }
    }
    if IsFirstNearest(p, cs, j) {
      forall i | 0 <= i < |col| && col[i].Some?
        ensures col[j].value <= col[i].value
      {
        assert cs[i].Mean?;
      }
      forall i | 0 <= i < j && col[i].Some?
        ensures col[j].value < col[i].value
      {
        assert cs[i].Mean?;
      }
    }
  }

  /** `f` applied to every present entry of `col`; absent entries stay absent. */
  function MapCol(col: seq<Option<real>>, f: real -> real): (out: seq<Option<real>>)
    ensures |out| == |col|
    ensures forall j :: 0 <= j < |col| ==> (out[j].None? <==> col[j].None?)
    ensures forall j :: 0 <= j < |col| && col[j].Some? ==> out[j].value == f(col[j].value)
  {
    seq(|col|, j requires 0 <= j < |col| => if col[j].Some? then Some(f(col[j].value)) else None)
  }

  /** `f` is strictly increasing on the non-negative reals, as the square root is. */
  ghost predicate IncreasingOnNonNegative(f: real -> real) {
    forall x: real, y: real :: 0.0 <= x && 0.0 <= y ==> (x < y <==> f(x) < f(y))
  }

  /**
    Applying a map that is strictly increasing on the non-negative reals to a
    column of non-negative distances does not move its argmin. So comparing
    squared distances picks the same centroid as comparing Euclidean ones.
   */
  lemma ArgMinUnderIncreasingMap(col: seq<Option<real>>, f: real -> real)
    requires IncreasingOnNonNegative(f)
    requires forall j :: 0 <= j < |col| && col[j].Some? ==> col[j].value >= 0.0
    ensures ArgMin(MapCol(col, f)) == ArgMin(col)
  {
    var out := MapCol(col, f);
    var r := ArgMin(col);
    if r.Some? {
      var j := r.value;
      forall i | 0 <= i < |out| && out[i].Some?
        ensures out[j].value <= out[i].value
      {
        assert col[j].value <= col[i].value;
      }
      forall i | 0 <= i < j && out[i].Some?
        ensures out[j].value < out[i].value
      {
        assert col[j].value < col[i].value;
      }
      assert IsFirstMin(out, j);
      ArgMinIsTheFirstMin(out, j);
    }
  }

  /** The nearest centroid by Euclidean distance `f(SqDist)` is the nearest by squared distance. */
  lemma NearestUnderIncreasingMap(p: Vector, cs: seq<Centroid>, f: real -> real)
    requires CentroidDims(cs, |p|) && IncreasingOnNonNegative(f)
    ensures ArgMin(MapCol(DistanceColumn(p, cs), f)) == Nearest(p, cs)
  {
    ArgMinUnderIncreasingMap(DistanceColumn(p, cs), f);
  }

  /**
    Index of the nearest non-empty centroid to `p` (the argmin of its
    distance column); `None` when every slot is empty.
   */
  function Nearest(p: Vector, cs: seq<Centroid>): (r: Option<nat>)
    requires CentroidDims(cs, |p|)
    ensures r.None? <==> forall j :: 0 <= j < |cs| ==> cs[j].Empty?
    ensures r.Some? ==> IsFirstNearest(p, cs, r.value)
  {
    var col := DistanceColumn(p, cs);
    var r := ArgMin(col);
    assert forall j :: 0 <= j < |cs| ==> (col[j].None? <==> cs[j].Empty?);
    if r.Some? then FirstMinOfColumn(p, cs, r.value); r else r
  }

  /**
    New labels for every row: the index of its nearest non-empty centroid.
    Fails (`None`) when there are rows but no non-empty centroid.
   */
  function Assign(data: seq<Vector>, d: nat, cs: seq<Centroid>): (r: Option<seq<int>>)
    requires AllDim(data, d) && CentroidDims(cs, d)
    ensures r.None? <==> |data| > 0 && forall j :: 0 <= j < |cs| ==> cs[j].Empty?
    ensures r.Some? ==> |r.value| == |data|
    ensures r.Some? ==> forall i :: 0 <= i < |data| ==> IsFirstNearest(data[i], cs, r.value[i])
  {
    if |data| > 0 && forall j :: 0 <= j < |cs| ==> cs[j].Empty? then None
    else Some(seq(|data|, i requires 0 <= i < |data| => Nearest(data[i], cs).value))
  }

  // ---------------------------------------------------------------------------
  // The refinement loop
  // ---------------------------------------------------------------------------

  /**
    One pass of the loop: centroids from `labels`, then reassignment. Every
    row lands in `[0, k)`, and never in a cluster that had no members.
   */
  function Step(data: seq<Vector>, d: nat, k: nat, labels: seq<int>): (next: seq<int>)
    requires AllDim(data, d) && ValidLabels(labels, |data|, k)
    ensures ValidLabels(next, |data|, k)
    ensures forall i :: 0 <= i < |data| ==>
              exists m :: 0 <= m < |data| && labels[m] == next[i]
  {
    var cs := CentroidsOf(data, d, k, labels);
    AssignAfterCentroids(data, d, k, labels);
    var next := Assign(data, d, cs).value;
    PopulatedOnly(data, d, k, labels, next);
    next
  }

  /** After a pass every row sits on its first nearest centroid among those computed from the old labels. */
  lemma StepIsNearest(data: seq<Vector>, d: nat, k: nat, labels: seq<int>, i: nat)
    requires AllDim(data, d) && ValidLabels(labels, |data|, k) && i < |data|
    ensures CentroidDims(CentroidsOf(data, d, k, labels), |data[i]|)
    ensures IsFirstNearest(data[i], CentroidsOf(data, d, k, labels), Step(data, d, k, labels)[i])
  {
    AssignAfterCentroids(data, d, k, labels);
    assert data[i] in data;
  }

  /**
    Centroids computed from labels in range always leave some slot non-empty
    when there are rows, so reassignment cannot fail on them.
   */
  lemma AssignAfterCentroids(data: seq<Vector>, d: nat, k: nat, labels: seq<int>)
    requires AllDim(data, d) && ValidLabels(labels, |data|, k)
    ensures CentroidDims(CentroidsOf(data, d, k, labels), d)
    ensures Assign(data, d, CentroidsOf(data, d, k, labels)).Some?
  {
    var cs := CentroidsOf(data, d, k, labels);
    if |data| > 0 {
      assert data[0] in Members(data, labels, labels[0]);
      assert cs[labels[0]].Mean?;
    }
  }

  /** A label chosen against these centroids names a cluster that had members. */
  lemma PopulatedOnly(data: seq<Vector>, d: nat, k: nat, labels: seq<int>, next: seq<int>)
    requires AllDim(data, d) && ValidLabels(labels, |data|, k) && |next| == |data|
    requires CentroidDims(CentroidsOf(data, d, k, labels), d)
    requires forall i :: 0 <= i < |data| ==>
               IsFirstNearest(data[i], CentroidsOf(data, d, k, labels), next[i])
    ensures forall i :: 0 <= i < |data| ==> exists m :: 0 <= m < |data| && labels[m] == next[i]
  {
    var cs := CentroidsOf(data, d, k, labels);
    forall i | 0 <= i < |data|
      ensures exists m :: 0 <= m < |data| && labels[m] == next[i]
    {
      var j := next[i];
      assert cs[j].Mean?;
      var ms := Members(data, labels, j);
      assert |ms| > 0;
      assert ms[0] in ms;
    }
  }

  /** Labels that one more pass reproduces exactly: where the loop stops. */
  predicate IsFixedPoint(data: seq<Vector>, d: nat, k: nat, labels: seq<int>)
    requires AllDim(data, d)
  {
    ValidLabels(labels, |data|, k) && Step(data, d, k, labels) == labels
  }

  /**
    Labels that all agree are a fixed point: the only cluster with members is
    the shared label, and an empty slot is never chosen, so every row stays.
   */
  lemma UniformLabelsFixed(data: seq<Vector>, d: nat, k: nat, labels: seq<int>, a: int)
    requires AllDim(data, d) && ValidLabels(labels, |data|, k) && |data| >= 1
    requires forall i :: 0 <= i < |labels| ==> labels[i] == a
    ensures Step(data, d, k, labels) == labels
  {
    var next := Step(data, d, k, labels);
    forall i | 0 <= i < |data|
      ensures next[i] == labels[i]
    {
      var m :| 0 <= m < |data| && labels[m] == next[i];
    }
  }

  /**
    The loop from pass `passes` on, with at most `maxPasses` passes in all:
    compute centroids, reassign, stop when the labels did not change.
   */
  function Lloyd(data: seq<Vector>, d: nat, k: nat, labels: seq<int>,
                 passes: nat, maxPasses: nat): (r: FitResult)
    requires AllDim(data, d) && ValidLabels(labels, |data|, k)
    ensures ValidLabels(r.labels, |data|, k)
    ensures r.Converged? ==> passes < r.passes <= maxPasses && |r.centroids| == k
    ensures r.NotConverged? ==> r.passes == (if passes >= maxPasses then passes else maxPasses)
    decreases maxPasses - passes
  {
    if passes >= maxPasses then NotConverged(labels, passes)
    else
      var centroids := CentroidsOf(data, d, k, labels);
      var next := Step(data, d, k, labels);
      if next == labels then Converged(next, centroids, passes + 1)
      else Lloyd(data, d, k, next, passes + 1, maxPasses)
  }

  /**
    A converged run returns a fixed point together with the centroids
    recomputed from it, `k` of them; a run that is not converged used up its
    whole budget and still holds labels in range.
   */
  lemma {:induction false} LloydOutcome(data: seq<Vector>, d: nat, k: nat, labels: seq<int>,
                                         passes: nat, maxPasses: nat)
    requires AllDim(data, d) && ValidLabels(labels, |data|, k)
    ensures var r := Lloyd(data, d, k, labels, passes, maxPasses);
      && (r.Converged? ==>
            && IsFixedPoint(data, d, k, r.labels)
            && r.centroids == CentroidsOf(data, d, k, r.labels)
            && |r.centroids| == k
            && passes < r.passes <= maxPasses)
      && (r.NotConverged? ==>
            && ValidLabels(r.labels, |data|, k)
            && r.passes == (if passes >= maxPasses then passes else maxPasses))
    decreases maxPasses - passes
  {
    if passes < maxPasses {
      var next := Step(data, d, k, labels);
      if next != labels {
        LloydOutcome(data, d, k, next, passes + 1, maxPasses);
      }
    }
  }

  /**
    From labels that all agree (the state in which the loop as written keeps
    moving every row) the loop stops after one pass, for every `k`.
   */
  lemma UniformLabelsConverge(data: seq<Vector>, d: nat, k: nat, labels: seq<int>, a: int,
                              passes: nat, maxPasses: nat)
    requires AllDim(data, d) && ValidLabels(labels, |data|, k) && |data| >= 1
    requires forall i :: 0 <= i < |labels| ==> labels[i] == a
    requires passes < maxPasses
    ensures Lloyd(data, d, k, labels, passes, maxPasses)
              == Converged(labels, CentroidsOf(data, d, k, labels), passes + 1)
  {
    UniformLabelsFixed(data, d, k, labels, a);
  }

  /**
    With a single cluster every label is 0, the one centroid is the mean of
    the whole data set, and the loop stops after its first pass.
   */
  lemma SingleClusterConvergesInOnePass(data: seq<Vector>, d: nat, labels: seq<int>, maxPasses: nat)
    requires AllDim(data, d) && ValidLabels(labels, |data|, 1) && maxPasses >= 1
    ensures forall i :: 0 <= i < |labels| ==> labels[i] == 0
    ensures Lloyd(data, d, 1, labels, 0, maxPasses) == Converged(labels, [MeanOf(data, d)], 1)
  {
    SingleClusterCentroid(data, d, labels);
    SingleClusterStep(data, d, labels);
  }

  /** With a single cluster its centroid is the mean of every row. */
  lemma SingleClusterCentroid(data: seq<Vector>, d: nat, labels: seq<int>)
    requires AllDim(data, d) && ValidLabels(labels, |data|, 1)
    ensures CentroidsOf(data, d, 1, labels) == [MeanOf(data, d)]
  {
    MembersOfUniformLabels(data, labels, 0);
  }

  /** With a single cluster a pass reproduces the labels it started from. */
  lemma SingleClusterStep(data: seq<Vector>, d: nat, labels: seq<int>)
    requires AllDim(data, d) && ValidLabels(labels, |data|, 1)
    ensures Step(data, d, 1, labels) == labels
  {
    var next := Step(data, d, 1, labels);
    assert forall i :: 0 <= i < |data| ==> next[i] == 0 == labels[i];
  }

  /**
    The loop of `fit`: starting from the initial labelling, alternate
    centroid computation and reassignment until the new labels equal the old
    ones, then return the new labels and the centroids that produced them.
    At most `maxPasses` passes are made.
   */
  method Fit(data: seq<Vector>, d: nat, k: nat, init: seq<int>, maxPasses: nat)
    returns (r: FitResult)
    requires IsDataSet(data, d) && k >= 1 && ValidLabels(init, |data|, k)
    ensures r == Lloyd(data, d, k, init, 0, maxPasses)
    ensures r.Converged? ==>
              && IsFixedPoint(data, d, k, r.labels)
              && r.centroids == CentroidsOf(data, d, k, r.labels)
              && |r.centroids| == k
              && 1 <= r.passes <= maxPasses
    ensures r.NotConverged? ==> ValidLabels(r.labels, |data|, k) && r.passes == maxPasses
  {
    var oldLabels := init;
    var passes := 0;
    while passes < maxPasses
      invariant passes <= maxPasses
      invariant ValidLabels(oldLabels, |data|, k)
      invariant Lloyd(data, d, k, oldLabels, passes, maxPasses) == Lloyd(data, d, k, init, 0, maxPasses)
      decreases maxPasses - passes
    {
      var centroids := CalculateCentroids(data, d, k, oldLabels);
      AssignAfterCentroids(data, d, k, oldLabels);
      var newLabels := Assign(data, d, centroids).value;
      passes := passes + 1;
      if newLabels == oldLabels {
        return Converged(newLabels, centroids, passes);
      }
      oldLabels := newLabels;
    }
    return NotConverged(oldLabels, passes);
  }
}
