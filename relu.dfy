/**
  The ReLU activation layer: forward applies max(0, x) entry by entry and
  caches its input; backward masks the incoming gradient with the derivative
  of ReLU at the cached input.
 */
module Relu {
  import opened Wrappers
  import opened MatrixValues
  import opened Matrices

  /** ReLU of one value; the non-positive branch is 0 * x, which is 0 over the reals. */
  function Activate(x: real): (y: real)
    ensures y >= 0.0 && y >= x && (y == x || y == 0.0)
  {
    if x > 0.0 then x else 0.0 * x
  }

  /** The ReLU derivative at x: 1 where x > 0, otherwise 0. */
  function Derivative(x: real): real
  {
    if x > 0.0 then 1.0 else 0.0
  }

  /** The forward output: ReLU at every entry. */
  function Rectified(x: Mat): (y: Mat)
    requires x.Valid()
    ensures y.Valid() && y.rows == x.rows && y.cols == x.cols
    ensures forall r: nat, c: nat :: r < x.rows && c < x.cols ==> y.Get(r, c) == Activate(x.Get(r, c))
  {
    Mat(x.rows, x.cols, seq(|x.data|, i requires 0 <= i < |x.data| => Activate(x.data[i])))
  }

  /** The derivative mask at the cached input. */
  function Mask(x: Mat): (d: Mat)
    requires x.Valid()
    ensures d.Valid() && d.rows == x.rows && d.cols == x.cols
    ensures forall r: nat, c: nat :: r < x.rows && c < x.cols ==> d.Get(r, c) == Derivative(x.Get(r, c))
  {
    Mat(x.rows, x.cols, seq(|x.data|, i requires 0 <= i < |x.data| => Derivative(x.data[i])))
  }

  /** The input gradient: the output gradient masked by the derivative at the cached input. */
  function Gated(cache: Mat, g: Mat): (dx: Mat)
    requires cache.Valid() && g.Valid() && g.rows == cache.rows && g.cols == cache.cols
    ensures dx.Valid() && dx.rows == g.rows && dx.cols == g.cols
  {
    Hadamard(g, Mask(cache))
  }

  /** ReLU outputs are never negative, and equal the input exactly where the input is positive. */
  lemma ForwardRectifies(x: Mat, r: nat, c: nat)
    requires x.Valid() && r < x.rows && c < x.cols
    ensures Rectified(x).Get(r, c) >= 0.0
    ensures Rectified(x).Get(r, c) == (if x.Get(r, c) > 0.0 then x.Get(r, c) else 0.0)
  {
  }

  /** Applying ReLU twice is the same as applying it once. */
  lemma ForwardIdempotent(x: Mat)
    requires x.Valid()
    ensures Rectified(Rectified(x)) == Rectified(x)
  {
    var y := Rectified(x);
    forall r: nat, c: nat | r < x.rows && c < x.cols ensures Rectified(y).Get(r, c) == y.Get(r, c) {
      ForwardRectifies(x, r, c);
    }
    Ext(Rectified(y), y);
  }

  /**
    The backward gradient passes the output gradient through exactly where
    the cached input was positive and is zero elsewhere.
   */
  lemma BackwardGates(cache: Mat, g: Mat, r: nat, c: nat)
    requires cache.Valid() && g.Valid() && g.rows == cache.rows && g.cols == cache.cols
    requires r < g.rows && c < g.cols
    ensures cache.Get(r, c) > 0.0 ==> Gated(cache, g).Get(r, c) == g.Get(r, c)
    ensures cache.Get(r, c) <= 0.0 ==> Gated(cache, g).Get(r, c) == 0.0
  {
  }

  /** The mask at a forward output equals the mask at its input: ReLU(x) > 0 exactly when x > 0. */
  lemma MaskOfOutput(x: Mat)
    requires x.Valid()
    ensures Mask(Rectified(x)) == Mask(x)
  {
    Ext(Mask(Rectified(x)), Mask(x));
  }

  class ReLULayer {
    /** The input of the last forward pass. */
    const inputCache: Matrix

    predicate Valid()
      reads inputCache
    {
      inputCache.Valid()
    }

    /** A layer whose cache is the empty 0 x 0 matrix. */
    constructor ()
      ensures Valid() && fresh(inputCache) && inputCache.Value() == Zeros(0, 0)
    {
      inputCache := new Matrix(0, 0);
    }

    /** ReLU has no weights. */
    function GetWeights(): (w: Option<Mat>)
      ensures w.None?
    {
      None
    }

    /** ReLU has no biases. */
    function GetBiases(): (b: Option<Mat>)
      ensures b.None?
    {
      None
    }

    /** Caches a copy of the input and returns ReLU of it. */
    method Forward(input: Matrix) returns (output: Matrix)
      requires Valid() && input.Valid() && input != inputCache
      modifies inputCache
      ensures Valid() && inputCache.Value() == input.Value()
      ensures fresh(output) && output.Valid() && output.Value() == Rectified(input.Value())
    {
      inputCache.Assign(input);
      output := input.Clone();
      for i := 0 to |output.data|
        modifies output
        invariant output.Valid() && output.rows == input.rows && output.cols == input.cols
        invariant forall k :: 0 <= k < |input.data| ==>
                    output.data[k] == if k < i then Activate(input.data[k]) else input.data[k]
      {
        var v := output.data[i];
        output.data := output.data[i := if v > 0.0 then v else 0.0 * v];
      }
      assert output.data == Rectified(input.Value()).data;
    }

    /**
      The input gradient for the cached input.  The learning rate is accepted
      for a uniform layer interface and ignored; the cache is left as it is.
     */
    method Backward(outputGradient: Matrix, learningRate: real) returns (inputGradient: Matrix)
      requires Valid() && outputGradient.Valid()
      requires outputGradient.rows == inputCache.rows && outputGradient.cols == inputCache.cols
      ensures fresh(inputGradient) && inputGradient.Valid()
      ensures inputGradient.Value() == Gated(inputCache.Value(), outputGradient.Value())
    {
      var derivative := inputCache.Clone();
      for i := 0 to |derivative.data|
        invariant derivative.Valid() && derivative.rows == inputCache.rows && derivative.cols == inputCache.cols
        invariant forall k :: 0 <= k < |inputCache.data| ==>
                    derivative.data[k] == if k < i then Derivative(inputCache.data[k]) else inputCache.data[k]
      {
        var v := derivative.data[i];
        derivative.data := derivative.data[i := if v > 0.0 then 1.0 else 0.0];
      }
      assert derivative.data == Mask(inputCache.Value()).data;
      inputGradient := outputGradient.ElementWiseMul(derivative);
    }
  }
}
