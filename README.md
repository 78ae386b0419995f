# k-means refinement loop, modelled in Dafny

This project models the `kmeans` class of `kmeans/kmeans.py`. The class runs Lloyd's algorithm on a
data set of `n` points of dimension `d`, in four steps:

- **Initial labelling** gives each row a cluster index in `[0, n_clusters)`.
- **Centroid computation** builds one centroid per cluster index, in index order. Centroid `j` is the
  component-wise mean of the rows labelled `j`.
- **Reassignment** gives each row the index of its nearest centroid. Ties go to the lowest index.
- **`fit`** alternates the last two steps until the new label vector equals the old one. It then
  returns the new labels and the centroids that produced them.

The object's only state is `n_clusters`, which is set in the constructor and never changed. So the
model has no class: `k` is a parameter of every operation. Points are `seq<real>` of one fixed
dimension `d >= 1`.

Files:

- `vectors.dfy` (module `Vectors`): component sums and squared Euclidean distance.
- `kmeans.dfy` (module `KMeans`): the four steps, the loop as a function (`Lloyd`) and as a method
  (`Fit`), and their properties.
- `kmeans_as_written.dfy` (module `AsWritten`): what the original reassignment does when a cluster is
  empty (see Findings).

Design choices:

- An empty cluster has no mean. Its centroid slot is `Centroid.Empty` rather than NaN, and reassignment
  never picks an `Empty` slot.
- `Assign` returns `None` only when there are rows but every slot is empty. A pass that starts from
  labels in range always has a non-empty slot, so this never happens inside the loop
  (`AssignAfterCentroids`).
- Labels outside `[0, k)` are accepted by `CalculateCentroids`, as in the code: the mask `clusters == i`
  never selects them, so they take part in no mean. A stricter version would reject such labels with
  an error; the model follows the code.
- An empty data set is accepted. The code handles it and `fit` returns at once with no labels.
  Rejecting an empty data set is not in the code, so it is not modelled.

## Model

| member | source | states |
|---|---|---|
| `KMeans.RandomAssignment` | kmeans/kmeans.py:29 | one label per row, each in `[0, k)` (the high bound of the draw is exclusive) |
| `KMeans.EveryLabellingIsDrawn` | kmeans/kmeans.py:29 | every labelling in `[0, k)` of the right length comes from some draw, so the injected draw loses no initial labelling |
| `KMeans.Members` | kmeans/kmeans.py:48 | the mask selects every row labelled `j`, and every selected row is labelled `j` |
| `KMeans.MeanOf` | kmeans/kmeans.py:49 | the mean is `Empty` exactly when no row is selected; otherwise it has dimension `d` |
| `KMeans.MeanOfIdentical` | kmeans/kmeans.py:49 | the mean of copies of one point is that point (one-point clusters, identical rows) |
| `KMeans.MeanWithinBounds` | kmeans/kmeans.py:49 | each component of a mean lies between the smallest and largest value averaged |
| `KMeans.CentroidsOf` | kmeans/kmeans.py:46-50 | exactly `k` slots of dimension `d`; slot `j` holds a mean exactly when some row is labelled `j` |
| `KMeans.CalculateCentroids` | kmeans/kmeans.py:46-50 | exactly `k` centroids; slot `j` is the mean of the rows labelled `j`, built in index order |
| `KMeans.MembersLocal` | kmeans/kmeans.py:48 | the selection for `j` depends only on which rows carry `j` and on those rows' values |
| `KMeans.CentroidLocal` | kmeans/kmeans.py:48-49 | centroid `j` is unchanged by relabelling or moving any row not labelled `j` |
| `KMeans.MembersOfUniformLabels` | kmeans/kmeans.py:48 | when every row carries `j`, the selection is the whole data set in order |
| `Vectors.SqDist` | kmeans/kmeans.py:66 | the squared distance is never negative and is zero between equal points |
| `Vectors.SqDistSymmetric` | kmeans/kmeans.py:66 | the distance does not depend on argument order |
| `KMeans.DistanceColumn` | kmeans/kmeans.py:66 | one distance per centroid slot, never negative, absent exactly for an empty slot |
| `KMeans.ArgMin` | kmeans/kmeans.py:67 | the result is the first index holding the smallest value; `None` only when the column has no value |
| `KMeans.ArgMinIsTheFirstMin` | kmeans/kmeans.py:67 | the argmin returns `j` if and only if `j` is the first minimum |
| `KMeans.TieGoesToLowerIndex` | kmeans/kmeans.py:67 | when two slots share the smallest distance, the result is at or before the earlier one |
| `KMeans.FirstMinOfColumn` | kmeans/kmeans.py:66-67 | the first minimum of a point's distance column is exactly its first nearest non-empty centroid |
| `KMeans.ArgMinUnderIncreasingMap` | kmeans/kmeans.py:66-67 | a map strictly increasing on non-negative values (the square root of `cdist`) leaves the argmin of a distance column unchanged |
| `KMeans.NearestUnderIncreasingMap` | kmeans/kmeans.py:66-67 | the nearest centroid by Euclidean distance is the nearest by squared distance |
| `KMeans.Nearest` | kmeans/kmeans.py:66-67 | the chosen slot is non-empty, no non-empty slot is strictly closer, and every earlier non-empty slot is strictly farther; `None` only when all slots are empty |
| `KMeans.Assign` | kmeans/kmeans.py:66-67 | one label per row, each the first nearest centroid of its row; fails only when there are rows and no non-empty centroid |
| `KMeans.Step` | kmeans/kmeans.py:92-93 | a pass yields one label per row in `[0, k)`, and never a cluster that had no members |
| `KMeans.StepIsNearest` | kmeans/kmeans.py:92-93 | after a pass each row is on its first nearest centroid among those computed from the old labels |
| `KMeans.UniformLabelsFixed` | kmeans/kmeans.py:92-94 | labels that all agree are reproduced by one pass, for every `k` |
| `KMeans.Lloyd` | kmeans/kmeans.py:90-97 | the bounded loop keeps labels in range; a converged run stops after 1 to the remaining budget of passes with `k` centroids, otherwise it has used the whole budget |
| `KMeans.UniformLabelsConverge` | kmeans/kmeans.py:90-97 | from labels that all agree the loop converges after one pass with those labels, for every `k` |
| `KMeans.LloydOutcome` | kmeans/kmeans.py:90-97 | a converged run returns a fixed point (one more pass gives the same labels) with the `k` centroids computed from it; otherwise the budget is used up and labels stay in range |
| `KMeans.SingleClusterConvergesInOnePass` | kmeans/kmeans.py:90-97 | with one cluster every label is 0, the one centroid is the mean of all rows, and the loop stops after its first pass |
| `KMeans.SingleClusterCentroid` | kmeans/kmeans.py:46-50 | with one cluster the centroid list is the mean of every row |
| `KMeans.SingleClusterStep` | kmeans/kmeans.py:66-67 | with one cluster a pass reproduces its labels |
| `KMeans.Fit` | kmeans/kmeans.py:90-97 | the loop computes `Lloyd`; when converged it returns a fixed point with the `k` centroids that produced it after 1 to `maxPasses` passes, otherwise labels in range after exactly `maxPasses` passes |
| `AsWritten.FirstEmpty` | kmeans/kmeans.py:49 | the first slot whose mean is NaN (empty), or the slot count when none is; every earlier slot holds a mean |
| `AsWritten.ArgMinWithNaN` | kmeans/kmeans.py:66-67 | numpy's argmin over a column with NaN entries: the first empty slot when there is one, otherwise the first nearest centroid |
| `AsWritten.StepAsWritten` | kmeans/kmeans.py:92-93 | a pass as written yields one label per row in `[0, k)` |
| `AsWritten.LloydAsWritten` | kmeans/kmeans.py:90-96 | the loop as written keeps labels in range, and stops only on labels that a pass as written reproduces |
| `AsWritten.EmptyClusterCapturesEveryRow` | kmeans/kmeans.py:49-67 | as written, one empty cluster draws every row to the lowest empty index, which no row carried before, so the labels change |
| `AsWritten.UniformLabelsLeaveEmptyCluster` | kmeans/kmeans.py:47-49 | with two or more clusters, labels that all agree leave some cluster empty |
| `AsWritten.AsWrittenNeverConverges` | kmeans/kmeans.py:90-96 | as written, once a cluster is empty no pass reproduces its labels, for any number of passes |
| `AsWritten.OneRowTwoClustersAsWritten` | kmeans/kmeans.py:90-96 | one row, two clusters, initial labels `[0]`: as written the labels alternate `[1]`, `[0]`, ... and never converge |
| `AsWritten.OneRowTwoClustersCorrected` | kmeans/kmeans.py:90-96 | on the same input, with empty slots never chosen, the first pass reproduces `[0]` and the loop converges |

## Findings

| source | as written | input that shows it | evidently intended | confidence | as-written member | corrected member |
|---|---|---|---|---|---|---|
| kmeans/kmeans.py:49-96 | The mean of an empty mask is a NaN vector. Every distance to it is NaN, and numpy's argmin returns the first NaN. So every row moves to the lowest empty cluster. Then all labels agree and, with two or more clusters, another cluster is empty. Each pass moves every row again, and `while True` never exits. | one row `[0.0]`, `n_clusters = 2`, initial labels `[0]` (a possible draw): labels go `[1]`, `[0]`, `[1]`, ... | an empty cluster is never chosen; the labels that all agree, which the code as written keeps moving, are then a fixed point and the loop stops after one pass | medium, not executed; relies on numpy's argmin returning the first NaN and on cdist giving NaN for a NaN centroid | `AsWritten.AsWrittenNeverConverges` | `KMeans.UniformLabelsConverge` |

With the default `n_clusters = 3` and one or two rows, the initial labelling always leaves a cluster
empty, so `fit` never returns on such data.

## Left out

- Randomness: `np.random.randint` is not modelled. The initial labels are an input that meets the range
  bound (`ValidLabels`). `RandomAssignment` takes the draw as an injected function, so the uniform
  distribution is not captured.
- Floating point: means and distances use exact `real` arithmetic, not IEEE doubles. Rounding, overflow
  and NaN are not modelled.
- Square root: reassignment compares squared Euclidean distances. `ArgMinUnderIncreasingMap` proves
  that any map strictly increasing on non-negative values, the square root among them, picks the same
  argmin. The square root itself is not defined, because Dafny has no square root on `real`.
- NaN centroids: an empty cluster's centroid is `Centroid.Empty`, which is never chosen. The NaN
  behaviour appears only in module `AsWritten`, for the finding above.
- Termination: the code loops with `while True`. The model stops after `maxPasses` passes and returns
  `NotConverged`. Whether Lloyd's algorithm always converges is not proved.
- `NotConverged` carries the latest labels and the pass count, not the last centroids. A caller can
  recompute them with `CentroidsOf`.
- Shapes and dtypes: the data set is a sequence of rows with the same dimension `d`. The error numpy
  raises on ragged or mismatched shapes is a precondition (`AllDim`, `CentroidDims`), not an error result.
- `n_clusters = 0`: `randint` rejects it, so `Fit` requires `k >= 1`.
- The constructor and the `n_clusters` default of 3 are not modelled; `k` is a parameter.
- KMeans.Members: its contract states which rows are selected, not how many times each one appears. The
  order and multiplicity of the selection come from its definition, which appends rows in index order.
- Vectors.SqDist: its contract does not state that a zero distance implies equal points. The solver's
  nonlinear real arithmetic could not prove that direction within the resource limit, and no property
  of the loop needs it.
