/**
  The fully connected layer: forward computes W * X + b with the bias column
  added to every sample column; backward computes the parameter gradients,
  returns the input gradient with the weights from before the update, and takes
  one gradient-descent step scaled by learning rate / batch size.
 */
module Dense {
  import opened Wrappers
  import opened MatrixValues
  import opened Matrices

  /** z with the bias column b added to each of its columns. */
  ghost function AddBias(z: Mat, b: Mat): (o: Mat)
    requires z.Valid() && b.Valid() && b.rows == z.rows && b.cols == 1
    ensures o.Valid() && o.rows == z.rows && o.cols == z.cols
    ensures forall r: nat, c: nat :: r < z.rows && c < z.cols ==> o.Get(r, c) == z.Get(r, c) + b.Get(r, 0)
  {
    var w := Build(z.rows, z.cols, (r: nat, c: nat) requires r < z.rows && c < z.cols => z.Get(r, c) + b.Get(r, 0));
    var o: Mat :| o.Valid() && o.rows == z.rows && o.cols == z.cols
                  && forall r: nat, c: nat :: r < z.rows && c < z.cols ==> o.Get(r, c) == z.Get(r, c) + b.Get(r, 0);
    o
  }

  /** Shapes a dense layer can hold: W is out x in and b is out x 1. */
  predicate Parameters(w: Mat, b: Mat)
  {
    w.Valid() && b.Valid() && b.rows == w.rows && b.cols == 1
  }

  /** The forward output W * X + b. */
  ghost function Affine(w: Mat, b: Mat, x: Mat): (y: Mat)
    requires Parameters(w, b) && x.Valid() && x.rows == w.cols
    ensures y.Valid() && y.rows == w.rows && y.cols == x.cols
  {
    AddBias(Product(w, x), b)
  }

  /** dW = G * X^T. */
  ghost function WeightsGradient(g: Mat, x: Mat): (dw: Mat)
    requires g.Valid() && x.Valid() && g.cols == x.cols
    ensures dw.Valid() && dw.rows == g.rows && dw.cols == x.rows
  {
    Product(g, Transposed(x))
  }

  /** dX = W^T * G. */
  ghost function InputGradient(w: Mat, g: Mat): (dx: Mat)
    requires w.Valid() && g.Valid() && g.rows == w.rows
    ensures dx.Valid() && dx.rows == w.cols && dx.cols == g.cols
  {
    Product(Transposed(w), g)
  }

  /** One descent step p - grad * (lr / batch). */
  function Descend(p: Mat, grad: Mat, lr: real, batch: nat): (q: Mat)
    requires p.Valid() && grad.Valid() && grad.rows == p.rows && grad.cols == p.cols && batch > 0
    ensures q.Valid() && q.rows == p.rows && q.cols == p.cols
  {
    Minus(p, Scaled(grad, lr / batch as real))
  }

  /** Entry (i, j) of the forward output is row i of W dotted with sample j, plus b_i. */
  lemma AffineEntry(w: Mat, b: Mat, x: Mat, i: nat, j: nat)
    requires Parameters(w, b) && x.Valid() && x.rows == w.cols && i < w.rows && j < x.cols
    ensures Affine(w, b, x).Get(i, j) == Dot(w, x, i, j, w.cols) + b.Get(i, 0)
  {
  }

  lemma {:induction false} DotColumns(w: Mat, x: Mat, lo: nat, hi: nat, i: nat, j: nat, n: nat)
    requires w.Valid() && x.Valid() && x.rows == w.cols && lo <= hi <= x.cols
    requires i < w.rows && j < hi - lo && n <= w.cols
    ensures Dot(w, Columns(x, lo, hi), i, j, n) == Dot(w, x, i, lo + j, n)
  {
    if n > 0 {
      DotColumns(w, x, lo, hi, i, j, n - 1);
      ColumnsGet(x, lo, hi);
    }
  }

  /**
    Samples are independent: forwarding a batch of columns gives the same
    columns of the output as forwarding the whole input.
   */
  lemma AffineOfBatch(w: Mat, b: Mat, x: Mat, lo: nat, hi: nat)
    requires Parameters(w, b) && x.Valid() && x.rows == w.cols && lo <= hi <= x.cols
    ensures Affine(w, b, Columns(x, lo, hi)) == Columns(Affine(w, b, x), lo, hi)
  {
    var lhs := Affine(w, b, Columns(x, lo, hi));
    var rhs := Columns(Affine(w, b, x), lo, hi);
    ColumnsGet(Affine(w, b, x), lo, hi);
    forall i: nat, j: nat | i < w.rows && j < hi - lo ensures lhs.Get(i, j) == rhs.Get(i, j) {
      DotColumns(w, x, lo, hi, i, j, w.cols);
    }
    Ext(lhs, rhs);
  }

  /** The descent step moves every entry by lr / batch times its gradient. */
  lemma DescendEntry(p: Mat, grad: Mat, lr: real, batch: nat, r: nat, c: nat)
    requires p.Valid() && grad.Valid() && grad.rows == p.rows && grad.cols == p.cols && batch > 0
    requires r < p.rows && c < p.cols
    ensures Descend(p, grad, lr, batch).Get(r, c) == p.Get(r, c) - grad.Get(r, c) * (lr / batch as real)
  {
  }

  lemma {:induction false} DotWithZeroLeft(g: Mat, x: Mat, i: nat, j: nat, n: nat)
    requires g.Valid() && x.Valid() && g.cols == x.rows && i < g.rows && j < x.cols && n <= g.cols
    requires forall r: nat, c: nat :: r < g.rows && c < g.cols ==> g.Get(r, c) == 0.0
    ensures Dot(g, x, i, j, n) == 0.0
  {
    if n > 0 {
      DotWithZeroLeft(g, x, i, j, n - 1);
    }
  }

  lemma {:induction false} RowSumOfZero(g: Mat, r: nat, n: nat)
    requires g.Valid() && r < g.rows && n <= g.cols
    requires forall r': nat, c: nat :: r' < g.rows && c < g.cols ==> g.Get(r', c) == 0.0
    ensures RowSum(g, r, n) == 0.0
  {
    if n > 0 {
      RowSumOfZero(g, r, n - 1);
    }
  }

  /** A zero output gradient gives zero parameter gradients, so the step leaves W and b as they were. */
  lemma ZeroGradientIsFixedPoint(w: Mat, b: Mat, x: Mat, g: Mat, lr: real)
    requires Parameters(w, b) && x.Valid() && x.rows == w.cols && x.cols > 0
    requires g.Valid() && g.rows == w.rows && g.cols == x.cols
    requires forall r: nat, c: nat :: r < g.rows && c < g.cols ==> g.Get(r, c) == 0.0
    ensures Descend(w, WeightsGradient(g, x), lr, x.cols) == w
    ensures Descend(b, RowSums(g), lr, x.cols) == b
  {
    var dw := WeightsGradient(g, x);
    forall i: nat, j: nat | i < w.rows && j < w.cols ensures dw.Get(i, j) == 0.0 {
      DotWithZeroLeft(g, Transposed(x), i, j, g.cols);
    }
    Ext(Descend(w, dw, lr, x.cols), w);
    var db := RowSums(g);
    forall i: nat | i < b.rows ensures db.Get(i, 0) == 0.0 {
      RowSumOfZero(g, i, g.cols);
    }
    Ext(Descend(b, db, lr, x.cols), b);
  }

  class DenseLayer {
    /** outputSize x inputSize. */
    const weights: Matrix
    /** outputSize x 1. */
    const biases: Matrix
    /** Values kept for the backward pass. */
    const inputCache: Matrix
    const weightsGradient: Matrix
    const biasesGradient: Matrix

    /** The matrices this layer owns. */
    function Repr(): set<object>
    {
      {weights, biases, inputCache, weightsGradient, biasesGradient}
    }

    predicate Valid()
      reads Repr()
    {
      Parameters(weights.Value(), biases.Value())
      && inputCache.Valid() && weightsGradient.Valid() && biasesGradient.Valid()
      && weights != biases && weights != inputCache && weights != weightsGradient && weights != biasesGradient
      && biases != inputCache && biases != weightsGradient && biases != biasesGradient
      && inputCache != weightsGradient && inputCache != biasesGradient
      && weightsGradient != biasesGradient
    }

    /**
      A layer with outputSize x inputSize weights and an outputSize x 1 bias
      column, whose caches are empty 0 x 0 matrices.  The initial parameters
      stand for the random initialisation and are arbitrary values of that shape.
     */
    constructor (inputSize: nat, outputSize: nat, initialWeights: Mat, initialBiases: Mat)
      requires initialWeights.Valid() && initialWeights.rows == outputSize && initialWeights.cols == inputSize
      requires initialBiases.Valid() && initialBiases.rows == outputSize && initialBiases.cols == 1
      ensures Valid() && fresh(Repr())
      ensures weights.Value() == initialWeights && biases.Value() == initialBiases
      ensures inputCache.Value() == Zeros(0, 0)
      ensures weightsGradient.Value() == Zeros(0, 0) && biasesGradient.Value() == Zeros(0, 0)
    {
      var w := new Matrix(outputSize, inputSize);
      w.data := initialWeights.data;
      var b := new Matrix(outputSize, 1);
      b.data := initialBiases.data;
      weights := w;
      biases := b;
      inputCache := new Matrix(0, 0);
      weightsGradient := new Matrix(0, 0);
      biasesGradient := new Matrix(0, 0);
    }

    /** Some of the current weights. */
    function GetWeights(): (w: Option<Mat>)
      reads weights
      ensures w.Some? && w.value == weights.Value()
    {
      Some(weights.Value())
    }

    /** Some of the current biases. */
    function GetBiases(): (b: Option<Mat>)
      reads biases
      ensures b.Some? && b.value == biases.Value()
    {
      Some(biases.Value())
    }

    /** Caches a copy of the input and returns W * input + b; the parameters are unchanged. */
    method Forward(input: Matrix) returns (output: Matrix)
      requires Valid() && input.Valid() && input.rows == weights.cols && input !in Repr()
      modifies inputCache
      ensures Valid() && inputCache.Value() == input.Value()
      ensures fresh(output) && output.Valid() && output.Value() == Affine(weights.Value(), biases.Value(), input.Value())
    {
      inputCache.Assign(input);
      var batchSize := input.cols;
      output := weights.Mul(input);
      ghost var z := output.Value();
      for col := 0 to batchSize
        modifies output
        invariant output.Valid() && output.rows == weights.rows && output.cols == batchSize
        invariant forall r: nat, c: nat :: r < weights.rows && c < batchSize ==>
                    output.Get(r, c) == z.Get(r, c) + (if c < col then biases.Get(r, 0) else 0.0)
      {
        for row := 0 to weights.rows
          modifies output
          invariant output.Valid() && output.rows == weights.rows && output.cols == batchSize
          invariant forall r: nat, c: nat :: r < weights.rows && c < batchSize ==>
                      output.Get(r, c) == z.Get(r, c) + (if c < col || (c == col && r < row) then biases.Get(r, 0) else 0.0)
        {
          var currentVal := output.Get(row, col);
          output.Set(row, col, currentVal + biases.Get(row, 0));
        }
      }
      Ext(output.Value(), Affine(weights.Value(), biases.Value(), input.Value()));
    }

    /**
      Stores dW = G * cache^T and dB = the row sums of G, returns W^T * G for
      the weights before the update, and steps both parameters against their
      gradients scaled by learningRate / batch, batch being the cached
      column count.
     */
    method Backward(outputGradient: Matrix, learningRate: real) returns (inputGradient: Matrix)
      requires Valid() && outputGradient.Valid() && outputGradient !in Repr()
      requires outputGradient.rows == weights.rows && outputGradient.cols == inputCache.cols
      requires inputCache.rows == weights.cols && inputCache.cols > 0
      modifies weights, biases, weightsGradient, biasesGradient
      ensures Valid()
      ensures weightsGradient.Value() == WeightsGradient(outputGradient.Value(), inputCache.Value())
      ensures biasesGradient.Value() == RowSums(outputGradient.Value())
      ensures fresh(inputGradient) && inputGradient.Valid()
      ensures inputGradient.Value() == InputGradient(old(weights.Value()), outputGradient.Value())
      ensures weights.Value() == Descend(old(weights.Value()), weightsGradient.Value(), learningRate, inputCache.cols)
      ensures biases.Value() == Descend(old(biases.Value()), biasesGradient.Value(), learningRate, inputCache.cols)
    {
      var batchSize := inputCache.cols as real;
      var inputTransposed := inputCache.Transpose();
      var dw := outputGradient.Mul(inputTransposed);
      weightsGradient.Assign(dw);
      var db := Matrices.SumCols(outputGradient);
      biasesGradient.Assign(db);
      var weightsTransposed := weights.Transpose();
      inputGradient := weightsTransposed.Mul(outputGradient);
      var weightUpdate := weightsGradient.Scale(learningRate / batchSize);
      var newWeights := weights.Sub(weightUpdate);
      weights.Assign(newWeights);
      var biasUpdate := biasesGradient.Scale(learningRate / batchSize);
      var newBiases := biases.Sub(biasUpdate);
      biases.Assign(newBiases);
    }
  }
}
