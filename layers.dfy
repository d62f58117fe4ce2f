/**
  The layer interface: every layer has optional weights and biases, a forward
  pass that records what backward needs, and a backward pass that takes the
  output gradient and the learning rate and returns the input gradient.
  `LState` is a layer's state as values, `ForwardStep` and `BackwardStep` are
  the two passes on it, and `Layer` packs a dense or ReLU layer object.
 */
module Layers {
  import opened Wrappers
  import opened MatrixValues
  import opened Matrices
  import opened Relu
  import opened Dense

  /** A layer's fields as values. */
  datatype LState =
    | DenseState(weights: Mat, biases: Mat, cache: Mat, weightsGradient: Mat, biasesGradient: Mat)
    | ReluState(cache: Mat)

  predicate StateValid(s: LState)
  {
    match s
    case DenseState(w, b, x, dw, db) => Parameters(w, b) && x.Valid() && dw.Valid() && db.Valid()
    case ReluState(x) => x.Valid()
  }

  /** What a layer maps: a dense layer takes `inputs` rows to `outputs` rows, ReLU keeps the shape. */
  datatype Kind = DenseKind(inputs: nat, outputs: nat) | ReluKind

  function KindOf(s: LState): Kind
  {
    match s
    case DenseState(w, _, _, _, _) => DenseKind(w.cols, w.rows)
    case ReluState(_) => ReluKind
  }

  /** The height of the output for an input of height h. */
  function OutputRows(k: Kind, h: nat): nat
  {
    match k
    case DenseKind(_, out) => out
    case ReluKind => h
  }

  /** Forward accepts x: a dense layer needs x.rows == W.cols. */
  predicate CanForward(s: LState, x: Mat)
  {
    StateValid(s) && x.Valid() && (s.DenseState? ==> x.rows == s.weights.cols)
  }

  /** The forward pass: the new state, whose cache is the input, and the output. */
  ghost function ForwardStep(s: LState, x: Mat): (res: (LState, Mat))
    requires CanForward(s, x)
    ensures StateValid(res.0) && KindOf(res.0) == KindOf(s) && res.0.cache == x
    ensures res.1.Valid() && res.1.rows == OutputRows(KindOf(s), x.rows) && res.1.cols == x.cols
  {
    match s
    case DenseState(w, b, _, dw, db) => (DenseState(w, b, x, dw, db), Affine(w, b, x))
    case ReluState(_) => (ReluState(x), Rectified(x))
  }

  /** Backward accepts g: it must match the cached input's batch, and a dense layer needs a non-empty batch. */
  predicate CanBackward(s: LState, g: Mat)
  {
    StateValid(s) && g.Valid() &&
    match s
    case DenseState(w, _, x, _, _) => g.rows == w.rows && g.cols == x.cols && x.rows == w.cols && x.cols > 0
    case ReluState(x) => g.rows == x.rows && g.cols == x.cols
  }

  /** The backward pass: the new state and the input gradient, which has the cached input's shape. */
  ghost function BackwardStep(s: LState, g: Mat, lr: real): (res: (LState, Mat))
    requires CanBackward(s, g)
    ensures StateValid(res.0) && KindOf(res.0) == KindOf(s) && res.0.cache == s.cache
    ensures res.1.Valid() && res.1.rows == s.cache.rows && res.1.cols == s.cache.cols
  {
    match s
    case DenseState(w, b, x, _, _) =>
      var dw := WeightsGradient(g, x);
      var db := RowSums(g);
      (DenseState(Descend(w, dw, lr, x.cols), Descend(b, db, lr, x.cols), x, dw, db), InputGradient(w, g))
    case ReluState(x) => (ReluState(x), Gated(x, g))
  }

  /** Right after a forward pass, backward accepts any gradient shaped like that pass's output. */
  lemma BackwardAcceptsForwardShape(s: LState, x: Mat, g: Mat)
    requires CanForward(s, x) && x.cols > 0
    requires g.Valid() && g.rows == ForwardStep(s, x).1.rows && g.cols == ForwardStep(s, x).1.cols
    ensures CanBackward(ForwardStep(s, x).0, g)
  {
  }

  /** A dense or a ReLU layer object. */
  datatype Layer = DenseL(dense: DenseLayer) | ReluL(relu: ReLULayer)
  {
    /** The matrices the layer owns. */
    function Repr(): set<object>
    {
      match this
      case DenseL(d) => d.Repr()
      case ReluL(r) => {r.inputCache}
    }

    predicate Valid()
      reads Repr()
    {
      match this
      case DenseL(d) => d.Valid()
      case ReluL(r) => r.Valid()
    }

    ghost function State(): LState
      reads Repr()
    {
      match this
      case DenseL(d) =>
        DenseState(d.weights.Value(), d.biases.Value(), d.inputCache.Value(), d.weightsGradient.Value(), d.biasesGradient.Value())
      case ReluL(r) => ReluState(r.inputCache.Value())
    }

    /** Some weights exactly for a dense layer, and then its current weights. */
    function GetWeights(): (w: Option<Mat>)
      reads Repr()
      ensures w.Some? <==> DenseL?
      ensures DenseL? ==> w.value == State().weights
    {
      match this
      case DenseL(d) => d.GetWeights()
      case ReluL(r) => r.GetWeights()
    }

    /** Some biases exactly for a dense layer, and then its current biases. */
    function GetBiases(): (b: Option<Mat>)
      reads Repr()
      ensures b.Some? <==> DenseL?
      ensures DenseL? ==> b.value == State().biases
    {
      match this
      case DenseL(d) => d.GetBiases()
      case ReluL(r) => r.GetBiases()
    }

    method Forward(input: Matrix) returns (output: Matrix)
      requires Valid() && input.Valid() && input !in Repr() && CanForward(State(), input.Value())
      modifies Repr()
      ensures Valid() && fresh(output) && output.Valid()
      ensures State() == ForwardStep(old(State()), input.Value()).0
      ensures output.Value() == ForwardStep(old(State()), input.Value()).1
    {
      match this
      case DenseL(d) => output := d.Forward(input);
      case ReluL(r) => output := r.Forward(input);
    }

    method Backward(outputGradient: Matrix, learningRate: real) returns (inputGradient: Matrix)
      requires Valid() && outputGradient.Valid() && outputGradient !in Repr()
      requires CanBackward(State(), outputGradient.Value())
      modifies Repr()
      ensures Valid() && fresh(inputGradient) && inputGradient.Valid()
      ensures State() == BackwardStep(old(State()), outputGradient.Value(), learningRate).0
      ensures inputGradient.Value() == BackwardStep(old(State()), outputGradient.Value(), learningRate).1
    {
      match this
      case DenseL(d) => inputGradient := d.Backward(outputGradient, learningRate);
      case ReluL(r) => inputGradient := r.Backward(outputGradient, learningRate);
    }
  }

  /** A layer none of whose matrices was written keeps its validity and its state. */
  twostate lemma Untouched(l: Layer)
    requires old(l.Valid()) && unchanged(l.Repr())
    ensures l.Valid() && l.State() == old(l.State())
  {
  }
}
