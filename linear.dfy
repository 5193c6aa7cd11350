/**
 * Exact real-valued vector and matrix arithmetic used by the Adaline learner:
 * the vectorised NumPy expressions of src/model.py written out element by element.
 * A matrix is a sequence of rows; every row of a feature matrix has the same width.
 */
module Linear {

  type Vector = seq<real>
  type Matrix = seq<Vector>

  /** Every row of `X` has exactly `width` entries (the shape of a 2-D array). */
  predicate Rectangular(X: Matrix, width: nat)
  {
    forall i :: 0 <= i < |X| ==> |X[i]| == width
  }

  function Zeros(n: nat): Vector
  {
    seq(n, _ => 0.0)
  }

  function Add(u: Vector, v: Vector): Vector
    requires |u| == |v|
  {
    seq(|u|, j requires 0 <= j < |u| => u[j] + v[j])
  }

  function Sub(u: Vector, v: Vector): Vector
    requires |u| == |v|
  {
    seq(|u|, j requires 0 <= j < |u| => u[j] - v[j])
  }

  function Scale(a: real, v: Vector): Vector
  {
    seq(|v|, j requires 0 <= j < |v| => a * v[j])
  }

  /** Elementwise square, `errors**2`. */
  function Squares(v: Vector): Vector
  {
    seq(|v|, j requires 0 <= j < |v| => v[j] * v[j])
  }

  /** The inner product of two vectors of equal length, summed from the left. */
  function Dot(x: Vector, w: Vector): real
    requires |x| == |w|
    decreases |x|
  {
    if |x| == 0 then 0.0 else x[0] * w[0] + Dot(x[1..], w[1..])
  }

  function Sum(v: Vector): real
    decreases |v|
  {
    if |v| == 0 then 0.0 else v[0] + Sum(v[1..])
  }

  /** `v.mean()`; NumPy's mean of an empty array is NaN, which has no real value. */
  function Mean(v: Vector): real
    requires |v| > 0
  {
    Sum(v) / |v| as real
  }

  /** Column `j` of `X`, i.e. row `j` of the transpose `X.T`. */
  function Column(X: Matrix, j: nat): (c: Vector)
    requires forall i :: 0 <= i < |X| ==> j < |X[i]|
  {
    seq(|X|, i requires 0 <= i < |X| => X[i][j])
  }

  /** `np.dot(X, w) + b`: the affine map applied to every row. */
  function NetInput(X: Matrix, w: Vector, b: real): Vector
    requires Rectangular(X, |w|)
  {
    seq(|X|, i requires 0 <= i < |X| => Dot(X[i], w) + b)
  }

  /** `errors = y - activation(net_input(X))` with the identity activation. */
  function Residuals(X: Matrix, y: Vector, w: Vector, b: real): Vector
    requires Rectangular(X, |w|) && |y| == |X|
  {
    Sub(y, NetInput(X, w, b))
  }

  /** `X.T @ e`, accumulated row by row as the sum of `e[i] * X[i]`; an empty `X` gives zeros. */
  function TransposeTimes(X: Matrix, e: Vector, width: nat): (g: Vector)
    requires Rectangular(X, width) && |e| == |X|
    ensures |g| == width
    decreases |X|
  {
    if |X| == 0 then Zeros(width)
    else Add(Scale(e[0], X[0]), TransposeTimes(X[1..], e[1..], width))
  }

  /** Entry `j` of `X.T @ e` is the inner product of column `j` of `X` with `e`. */
  lemma {:induction false} TransposeTimesColumns(X: Matrix, e: Vector, width: nat)
    requires Rectangular(X, width) && |e| == |X|
    ensures forall j :: 0 <= j < width ==> TransposeTimes(X, e, width)[j] == Dot(Column(X, j), e)
    decreases |X|
  {
    if |X| > 0 {
      TransposeTimesColumns(X[1..], e[1..], width);
      forall j | 0 <= j < width ensures Column(X, j)[1..] == Column(X[1..], j) {
      }
    }
  }

  /** A sum of non-negative terms is non-negative. */
  lemma {:induction false} SumNonNegative(v: Vector)
    requires forall i :: 0 <= i < |v| ==> v[i] >= 0.0
    ensures Sum(v) >= 0.0
    decreases |v|
  {
    if |v| > 0 {
      SumNonNegative(v[1..]);
    }
  }

  /** The mean squared value of a non-empty vector, the loss of one epoch, is non-negative. */
  lemma MeanSquaresNonNegative(v: Vector)
    requires |v| > 0
    ensures Mean(Squares(v)) >= 0.0
  {
    SumNonNegative(Squares(v));
  }

  lemma {:induction false} SumZeros(n: nat)
    ensures Sum(Zeros(n)) == 0.0
  {
    if n > 0 {
      assert Zeros(n)[1..] == Zeros(n - 1);
      SumZeros(n - 1);
    }
  }

  /** The inner product with the zero vector is zero. */
  lemma {:induction false} DotZeros(x: Vector)
    ensures Dot(x, Zeros(|x|)) == 0.0
    decreases |x|
  {
    if |x| > 0 {
      assert Zeros(|x|)[1..] == Zeros(|x| - 1);
      DotZeros(x[1..]);
    }
  }
}
