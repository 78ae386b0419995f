/**
  Points of a fixed dimension `d` over exact reals, and the two numeric
  operations the refinement loop needs: the component-wise sum of a
  collection of points (the numerator of a mean) and the squared Euclidean
  distance between two points.
 */
module Vectors {

  type Vector = seq<real>

  /** Every point of `ps` has exactly `d` components (a rectangular n x d data set). */
  predicate AllDim(ps: seq<Vector>, d: nat) {
    forall v :: v in ps ==> |v| == d
  }

  /** Sum of component `c` over all points of `ps`, accumulated in index order. */
  function SumAt(ps: seq<Vector>, c: nat): real
    requires forall i :: 0 <= i < |ps| ==> c < |ps[i]|
    decreases |ps|
  {
    if |ps| == 0 then 0.0 else SumAt(ps[..|ps| - 1], c) + ps[|ps| - 1][c]
  }

  /** Summing `n` copies of the same value gives `n` times that value. */
  lemma {:induction false} SumAtConstant(ps: seq<Vector>, c: nat, x: real)
    requires forall i :: 0 <= i < |ps| ==> c < |ps[i]| && ps[i][c] == x
    ensures SumAt(ps, c) == (|ps| as real) * x
    decreases |ps|
  {
    if |ps| > 0 {
      SumAtConstant(ps[..|ps| - 1], c, x);
    }
  }

  /** A sum of values in `[lo, hi]` lies in `[n * lo, n * hi]`. */
  lemma {:induction false} SumAtBounds(ps: seq<Vector>, c: nat, lo: real, hi: real)
    requires forall i :: 0 <= i < |ps| ==> c < |ps[i]| && lo <= ps[i][c] <= hi
    ensures (|ps| as real) * lo <= SumAt(ps, c) <= (|ps| as real) * hi
    decreases |ps|
  {
    if |ps| > 0 {
      SumAtBounds(ps[..|ps| - 1], c, lo, hi);
    }
  }

  /** Dividing by a positive count keeps a value between the correspondingly divided bounds. */
  lemma DivBounds(s: real, n: real, lo: real, hi: real)
    requires n > 0.0 && n * lo <= s <= n * hi
    ensures lo <= s / n <= hi
  {
    var q := s / n;
    assert q * n == s;
  }

  /**
    Squared Euclidean distance. The square root taken by the Euclidean
    distance is strictly increasing on non-negative values, so comparing
    squared distances picks the same nearest point
    (`KMeans.ArgMinUnderIncreasingMap`).
   */
  function SqDist(p: Vector, q: Vector): (r: real)
    requires |p| == |q|
    ensures r >= 0.0
    ensures p == q ==> r == 0.0
    decreases |p|
  {
    if |p| == 0 then 0.0
    else (p[0] - q[0]) * (p[0] - q[0]) + SqDist(p[1..], q[1..])
  }

  /** The distance does not depend on the order of its arguments. */
  lemma {:induction false} SqDistSymmetric(p: Vector, q: Vector)
    requires |p| == |q|
    ensures SqDist(p, q) == SqDist(q, p)
    decreases |p|
  {
    if |p| > 0 {
      SqDistSymmetric(p[1..], q[1..]);
    }
  }
}
