/**
 * The Adaptive Linear Neuron of src/model.py: full-batch gradient descent on the
 * mean squared error, with the identity activation and a 0.5 threshold.
 * Arithmetic is exact (real); the Gaussian initial weights are an input.
 */
module Adaline {
  import opened Linear
  import opened Results

  /** The number of epochs `range(n_iter)` yields: none when `n_iter` is not positive. */
  function Epochs(nIter: int): nat
  {
    if nIter > 0 then nIter else 0
  }

  /** `p += lr * 2.0 * slope`: one parameter's gradient step, `slope` a per-row average. */
  function Descend(p: real, lr: real, slope: real): real
  {
    p + lr * 2.0 * slope
  }

  /** Parameters after one epoch, and the loss recorded for it. */
  datatype Step = Step(w: Vector, b: real, loss: real)

  /**
   * One epoch of the training loop: residuals from the current parameters, then
   * the gradient step on weights and bias and the mean squared residual.
   */
  function Epoch(lr: real, X: Matrix, y: Vector, w: Vector, b: real): (s: Step)
    requires |X| > 0 && |y| == |X| && Rectangular(X, |w|)
    ensures |s.w| == |w|
    ensures forall j :: 0 <= j < |w| ==>
      s.w[j] == Descend(w[j], lr, Dot(Column(X, j), Residuals(X, y, w, b)) / |X| as real)
    ensures s.b == Descend(b, lr, Sum(Residuals(X, y, w, b)) / |X| as real)
    ensures s.loss == Mean(Squares(Residuals(X, y, w, b)))
    ensures s.loss >= 0.0
  {
    var e := Residuals(X, y, w, b);
    MeanSquaresNonNegative(e);
    var g := TransposeTimes(X, e, |w|);
    TransposeTimesColumns(X, e, |w|);
    Step(seq(|w|, j requires 0 <= j < |w| => Descend(w[j], lr, g[j] / |X| as real)),
         Descend(b, lr, Mean(e)),
         Mean(Squares(e)))
  }

  /** Weights, bias and loss history. */
  datatype History = History(w: Vector, b: real, losses: seq<real>)

  /** The state `fit` reaches after `k` epochs from the initial weights `w0` and bias 0. */
  function Train(lr: real, X: Matrix, y: Vector, w0: Vector, k: nat): (h: History)
    requires |X| > 0 && |y| == |X| && Rectangular(X, |w0|)
    ensures |h.w| == |w0|
    ensures |h.losses| == k
    ensures forall t :: 0 <= t < k ==> h.losses[t] >= 0.0
    decreases k
  {
    if k == 0 then History(w0, 0.0, [])
    else
      var h := Train(lr, X, y, w0, k - 1);
      var s := Epoch(lr, X, y, h.w, h.b);
      History(s.w, s.b, h.losses + [s.loss])
  }

  /** The loss history is append-only: a shorter run's history is a prefix of a longer run's. */
  lemma {:induction false} TrainAppendOnly(lr: real, X: Matrix, y: Vector, w0: Vector, j: nat, k: nat)
    requires |X| > 0 && |y| == |X| && Rectangular(X, |w0|)
    requires j <= k
    ensures Train(lr, X, y, w0, j).losses == Train(lr, X, y, w0, k).losses[..j]
    decreases k
  {
    if j < k {
      TrainAppendOnly(lr, X, y, w0, j, k - 1);
      var shorter := Train(lr, X, y, w0, k - 1).losses;
      assert Train(lr, X, y, w0, k).losses[..k - 1] == shorter;
      assert shorter[..j] == Train(lr, X, y, w0, k).losses[..j];
    }
  }

  /** Parameters that reproduce every target leave residuals that are all zero. */
  lemma ExactFitResiduals(X: Matrix, y: Vector, w: Vector, b: real)
    requires |y| == |X| && Rectangular(X, |w|)
    requires forall i :: 0 <= i < |X| ==> y[i] == Dot(X[i], w) + b
    ensures Residuals(X, y, w, b) == Zeros(|X|)
  {
    var e := Residuals(X, y, w, b);
    forall i | 0 <= i < |X| ensures e[i] == 0.0 {
    }
  }

  /** An epoch in which every residual is zero leaves the parameters as they are and records loss 0. */
  lemma ZeroResidualEpoch(lr: real, X: Matrix, y: Vector, w: Vector, b: real)
    requires |X| > 0 && |y| == |X| && Rectangular(X, |w|)
    requires Residuals(X, y, w, b) == Zeros(|X|)
    ensures Epoch(lr, X, y, w, b) == Step(w, b, 0.0)
  {
    var n := |X|;
    var s := Epoch(lr, X, y, w, b);
    assert s.b == b by {
      SumZeros(n);
    }
    assert s.loss == 0.0 by {
      assert Squares(Zeros(n)) == Zeros(n);
      SumZeros(n);
    }
    assert s.w == w by {
      forall j | 0 <= j < |w| ensures s.w[j] == w[j] {
        DotZeros(Column(X, j));
      }
    }
  }

  /**
   * When the initial parameters already fit every target exactly, training never
   * moves them and records a loss of 0 for each epoch.
   */
  lemma {:induction false} TrainAtExactFit(lr: real, X: Matrix, y: Vector, w0: Vector, k: nat)
    requires |X| > 0 && |y| == |X| && Rectangular(X, |w0|)
    requires forall i :: 0 <= i < |X| ==> y[i] == Dot(X[i], w0)
    ensures Train(lr, X, y, w0, k) == History(w0, 0.0, Zeros(k))
    decreases k
  {
    if k > 0 {
      TrainAtExactFit(lr, X, y, w0, k - 1);
      ExactFitResiduals(X, y, w0, 0.0);
      ZeroResidualEpoch(lr, X, y, w0, 0.0);
      assert Zeros(k - 1) + [0.0] == Zeros(k);
    }
  }

  datatype ModelError =
    | NotFitted       // `w_` or `b_` is read before `fit` created it (AttributeError)
    | ShapeMismatch   // NumPy refuses to combine arrays of incompatible shapes (ValueError)
    | NoSamples       // an epoch over zero rows divides by zero; NumPy yields NaN

  class AdalineGD {
    var lr: real
    var nIter: int
    var randomState: int
    /** Whether `fit` has created the attributes `w_`, `b_` and `losses_`. */
    var hasWeights: bool
    var w: Vector
    var b: real
    var losses: seq<real>

    ghost predicate Valid()
      reads this
    {
      && (!hasWeights ==> w == [] && b == 0.0 && losses == [])
      && |losses| <= Epochs(nIter)
      && forall t :: 0 <= t < |losses| ==> losses[t] >= 0.0
    }

    /** Stores the hyper-parameters; no weights exist yet. */
    constructor (lr: real := 0.01, nIter: int := 100, randomState: int := 1)
      ensures Valid()
      ensures this.lr == lr && this.nIter == nIter && this.randomState == randomState
      ensures !hasWeights
    {
      this.lr := lr;
      this.nIter := nIter;
      this.randomState := randomState;
      hasWeights := false;
      w := [];
      b := 0.0;
      losses := [];
    }

    /**
     * Batch gradient descent. `w0` is what the seeded generator draws, one weight per
     * column of `X`. The weights, the bias and the history are reset before the
     * first epoch, so they stay reset when that epoch fails.
     */
    method Fit(X: Matrix, y: Vector, w0: Vector) returns (r: Result<AdalineGD, ModelError>)
      requires Valid()
      requires Rectangular(X, |w0|)
      modifies this
      ensures Valid() && hasWeights
      ensures lr == old(lr) && nIter == old(nIter) && randomState == old(randomState)
      ensures Epochs(nIter) == 0 ==> r == Ok(this) && w == w0 && b == 0.0 && losses == []
      ensures Epochs(nIter) > 0 && |y| != |X| ==>
        r == Err(ShapeMismatch) && w == w0 && b == 0.0 && losses == []
      ensures Epochs(nIter) > 0 && |y| == |X| == 0 ==>
        r == Err(NoSamples) && w == w0 && b == 0.0 && losses == []
      ensures Epochs(nIter) > 0 && |y| == |X| > 0 ==>
        r == Ok(this) && History(w, b, losses) == Train(lr, X, y, w0, Epochs(nIter))
      ensures r.Ok? ==> r.value == this && |w| == |w0| && |losses| == Epochs(nIter)
    {
      w := w0;
      b := 0.0;
      losses := [];
      hasWeights := true;
      var epochs := Epochs(nIter);
      if epochs == 0 {
        return Ok(this);
      }
      if |y| != |X| {
        return Err(ShapeMismatch);
      }
      if |X| == 0 {
        return Err(NoSamples);
      }
      for k := 0 to epochs
        invariant lr == old(lr) && nIter == old(nIter) && randomState == old(randomState)
        invariant hasWeights && |w| == |w0| && |losses| == k
        invariant History(w, b, losses) == Train(lr, X, y, w0, k)
      {
        ghost var step := Epoch(lr, X, y, w, b);
        var output := Activation(Linear.NetInput(X, w, b));
        var errors := Sub(y, output);
        var g := TransposeTimes(X, errors, |w|);
        var current, rate := w, lr;
        w := seq(|current|, j requires 0 <= j < |current| => Descend(current[j], rate, g[j] / |X| as real));
        b := Descend(b, lr, Mean(errors));
        var loss := Mean(Squares(errors));
        losses := losses + [loss];
        assert w == step.w && b == step.b && loss == step.loss;
      }
      return Ok(this);
    }

    /** `np.dot(X, w_) + b_`; reads the parameters and changes nothing. */
    function NetInput(X: Matrix): (r: Result<Vector, ModelError>)
      reads this
      ensures !hasWeights ==> r == Err(NotFitted)
      ensures hasWeights ==> (r.Ok? <==> Rectangular(X, |w|))
      ensures hasWeights && !Rectangular(X, |w|) ==> r == Err(ShapeMismatch)
      ensures r.Ok? ==> |r.value| == |X| && forall i :: 0 <= i < |X| ==> r.value[i] == Dot(X[i], w) + b
    {
      if !hasWeights then Err(NotFitted)
      else if !Rectangular(X, |w|) then Err(ShapeMismatch)
      else Ok(Linear.NetInput(X, w, b))
    }

    /** The linear activation returns its input unchanged. */
    function Activation(z: Vector): (a: Vector)
      ensures a == z
    {
      z
    }

    /** Class label 1 where the activation reaches 0.5, otherwise 0. */
    function Predict(X: Matrix): (r: Result<seq<int>, ModelError>)
      reads this
      ensures r.Err? <==> NetInput(X).Err?
      ensures r.Err? ==> r.error == NetInput(X).error
      ensures r.Ok? ==> |r.value| == |X|
      ensures r.Ok? ==> forall i :: 0 <= i < |X| ==>
        (r.value[i] == 0 || r.value[i] == 1) && (r.value[i] == 1 <==> Dot(X[i], w) + b >= 0.5)
    {
      match NetInput(X)
      case Err(e) => Err(e)
      case Ok(z) =>
        var a := Activation(z);
        Ok(seq(|a|, i requires 0 <= i < |a| => if a[i] >= 0.5 then 1 else 0))
    }
  }
}
