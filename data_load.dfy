/**
  Loading a data set: feature records become an input_size x sample_count
  matrix with one sample per column, label records become a one-hot
  output_size x sample_count target.  The records arrive already split into
  fields and parsed; the loader checks their counts and label ranges and
  reports the first problem it meets.
 */
module DataLoad {
  import opened Wrappers
  import opened MatrixValues
  import opened Matrices
  import Networks

  datatype LoadError =
    | NoData
    | WrongColumnCount(row: nat, expected: nat, got: nat)
    | SampleCountMismatch(xCount: nat, yCount: nat)
    | WrongLabelColumns(row: nat, got: nat)
    | LabelOutOfRange(index: nat, outputSize: nat)

  /** The index of the first feature record whose field count is not n, if any. */
  function FirstWrongRow(xs: seq<seq<real>>, n: nat): (r: Option<nat>)
    ensures r.None? <==> forall i :: 0 <= i < |xs| ==> |xs[i]| == n
    ensures r.Some? ==> r.value < |xs| && |xs[r.value]| != n && forall j :: 0 <= j < r.value ==> |xs[j]| == n
  {
    if xs == [] then None
    else if |xs[0]| != n then Some(0)
    else
      match FirstWrongRow(xs[1..], n)
      case None => None
      case Some(i) => Some(i + 1)
  }

  /** A label record is a single class index below outputSize. */
  predicate LabelOk(y: seq<nat>, outputSize: nat)
  {
    |y| == 1 && y[0] < outputSize
  }

  /** The index of the first label record that is not a valid label, if any. */
  function FirstBadLabel(ys: seq<seq<nat>>, outputSize: nat): (r: Option<nat>)
    ensures r.None? <==> forall i :: 0 <= i < |ys| ==> LabelOk(ys[i], outputSize)
    ensures r.Some? ==> r.value < |ys| && !LabelOk(ys[r.value], outputSize) &&
                        forall j :: 0 <= j < r.value ==> LabelOk(ys[j], outputSize)
  {
    if ys == [] then None
    else if !LabelOk(ys[0], outputSize) then Some(0)
    else
      match FirstBadLabel(ys[1..], outputSize)
      case None => None
      case Some(i) => Some(i + 1)
  }

  /** The complaint about label record i: its field count first, its range second. */
  function LabelError(y: seq<nat>, i: nat, outputSize: nat): LoadError
    requires !LabelOk(y, outputSize)
  {
    if |y| != 1 then WrongLabelColumns(i, |y|) else LabelOutOfRange(y[0], outputSize)
  }

  /** Field r of record c, and 0 outside the records. */
  function Field(xs: seq<seq<real>>, c: nat, r: nat): real
  {
    if c < |xs| && r < |xs[c]| then xs[c][r] else 0.0
  }

  /** Whether label record c is the single class index r. */
  predicate Hot(ys: seq<seq<nat>>, c: nat, r: nat)
  {
    c < |ys| && |ys[c]| == 1 && ys[c][0] == r
  }

  /** The input matrix: entry (r, c) is field r of record c. */
  ghost function Features(xs: seq<seq<real>>, inputSize: nat): (x: Mat)
    ensures x.Valid() && x.rows == inputSize && x.cols == |xs|
    ensures forall r: nat, c: nat :: r < inputSize && c < |xs| && r < |xs[c]| ==> x.Get(r, c) == xs[c][r]
  {
    Build(inputSize, |xs|, (r: nat, c: nat) => Field(xs, c, r))
  }

  /** The one-hot target: entry (r, c) is 1 when record c is the class r, and 0 otherwise. */
  ghost function OneHot(ys: seq<seq<nat>>, outputSize: nat): (y: Mat)
    ensures y.Valid() && y.rows == outputSize && y.cols == |ys|
    ensures forall r: nat, c: nat :: r < outputSize && c < |ys| ==> y.Get(r, c) == if Hot(ys, c, r) then 1.0 else 0.0
  {
    Build(outputSize, |ys|, (r: nat, c: nat) => if Hot(ys, c, r) then 1.0 else 0.0)
  }

  /**
    The outcome of loading: no feature records; else the first feature record
    of the wrong width; else a label count differing from the sample count;
    else the first bad label record; else the two matrices.
   */
  ghost function Load(xs: seq<seq<real>>, ys: seq<seq<nat>>, inputSize: nat, outputSize: nat)
    : Result<(Mat, Mat), LoadError>
  {
    if |xs| == 0 then Failure(NoData)
    else
      match FirstWrongRow(xs, inputSize)
      case Some(i) => Failure(WrongColumnCount(i, inputSize, |xs[i]|))
      case None =>
        if |ys| != |xs| then Failure(SampleCountMismatch(|xs|, |ys|))
        else
          match FirstBadLabel(ys, outputSize)
          case Some(i) => Failure(LabelError(ys[i], i, outputSize))
          case None => Success((Features(xs, inputSize), OneHot(ys, outputSize)))
  }

  /** Loading succeeds exactly when there are samples, every record has the right width and every label is valid. */
  lemma LoadSucceedsIff(xs: seq<seq<real>>, ys: seq<seq<nat>>, inputSize: nat, outputSize: nat)
    ensures Load(xs, ys, inputSize, outputSize).Success? <==>
      |xs| > 0 && (forall i :: 0 <= i < |xs| ==> |xs[i]| == inputSize) && |ys| == |xs| &&
      forall i :: 0 <= i < |ys| ==> LabelOk(ys[i], outputSize)
  {
  }

  /**
    Each error names the first problem in reading order: the record it names
    is bad and every record read before it passed the same check.
   */
  lemma {:induction false} LoadErrorMeaning(xs: seq<seq<real>>, ys: seq<seq<nat>>, inputSize: nat, outputSize: nat)
    requires Load(xs, ys, inputSize, outputSize).Failure?
    ensures var e := Load(xs, ys, inputSize, outputSize).error;
      && (e.NoData? <==> |xs| == 0)
      && (e.WrongColumnCount? ==>
            |xs| > 0 && e.row < |xs| && e.expected == inputSize && e.got == |xs[e.row]| != inputSize &&
            forall j :: 0 <= j < e.row ==> |xs[j]| == inputSize)
      && (e.SampleCountMismatch? ==>
            (forall i :: 0 <= i < |xs| ==> |xs[i]| == inputSize) && e.xCount == |xs| > 0 && e.yCount == |ys| != |xs|)
      && (e.WrongLabelColumns? ==>
            |xs| == |ys| && e.row < |ys| && e.got == |ys[e.row]| != 1 &&
            forall j :: 0 <= j < e.row ==> LabelOk(ys[j], outputSize))
      && (e.LabelOutOfRange? ==>
            |xs| == |ys| && e.outputSize == outputSize && e.index >= outputSize &&
            exists i :: 0 <= i < |ys| && ys[i] == [e.index] && forall j :: 0 <= j < i ==> LabelOk(ys[j], outputSize))
  {
    if |xs| > 0 && FirstWrongRow(xs, inputSize).None? && |ys| == |xs| {
      var k := FirstBadLabel(ys, outputSize).value;
      if |ys[k]| == 1 {
        assert ys[k] == [ys[k][0]];
      }
    }
  }

  /** On success the input matrix holds field c of record i at (c, i). */
  lemma LoadFeatures(xs: seq<seq<real>>, ys: seq<seq<nat>>, inputSize: nat, outputSize: nat)
    requires Load(xs, ys, inputSize, outputSize).Success?
    ensures var x := Load(xs, ys, inputSize, outputSize).value.0;
      x.Valid() && x.rows == inputSize && x.cols == |xs| &&
      forall c: nat, i: nat :: c < inputSize && i < |xs| ==> x.Get(c, i) == xs[i][c]
  {
  }

  /**
    On success the target is one-hot: column i has 1 at the row of label i and
    0 elsewhere, so the true class of sample i is its label.
   */
  lemma LoadOneHot(xs: seq<seq<real>>, ys: seq<seq<nat>>, inputSize: nat, outputSize: nat)
    requires Load(xs, ys, inputSize, outputSize).Success?
    ensures var y := Load(xs, ys, inputSize, outputSize).value.1;
      y.Valid() && y.rows == outputSize && y.cols == |xs| &&
      (forall r: nat, i: nat :: r < outputSize && i < |xs| ==> y.Get(r, i) == if r == ys[i][0] then 1.0 else 0.0) &&
      forall i :: 0 <= i < |xs| ==> Networks.ScanInBounds(y, y.rows, i, 0) && Networks.TrueClass(y, y.rows, i) == ys[i][0]
  {
    var y := Load(xs, ys, inputSize, outputSize).value.1;
    forall i | 0 <= i < |xs| ensures Networks.ScanInBounds(y, y.rows, i, 0) && Networks.TrueClass(y, y.rows, i) == ys[i][0] {
      assert LabelOk(ys[i], outputSize);
      Networks.OneHotTrueClass(y, i, ys[i][0]);
    }
  }

  /** The matrices of a successful load, as values. */
  function Values(r: Result<(Matrix, Matrix), LoadError>): Result<(Mat, Mat), LoadError>
    reads if r.Success? then {r.value.0, r.value.1} else {}
  {
    match r
    case Success((x, y)) => Success((x.Value(), y.Value()))
    case Failure(e) => Failure(e)
  }

  /** The feature half of loading: the input matrix, or the first feature record of the wrong width. */
  method ReadFeatures(xs: seq<seq<real>>, inputSize: nat) returns (r: Result<Matrix, LoadError>)
    requires |xs| > 0
    ensures r.Success? ==> fresh(r.value) && r.value.Valid() && FirstWrongRow(xs, inputSize).None? &&
                           r.value.Value() == Features(xs, inputSize)
    ensures r.Failure? ==> FirstWrongRow(xs, inputSize).Some? &&
                           r.error == WrongColumnCount(FirstWrongRow(xs, inputSize).value, inputSize,
                                                       |xs[FirstWrongRow(xs, inputSize).value]|)
  {
    var sampleCount := |xs|;
    var inputX := new Matrix(inputSize, sampleCount);
    for i := 0 to sampleCount
      invariant fresh(inputX) && inputX.Valid() && inputX.rows == inputSize && inputX.cols == sampleCount
      invariant forall j :: 0 <= j < i ==> |xs[j]| == inputSize
      invariant forall r: nat, c: nat :: r < inputSize && c < sampleCount ==>
                  inputX.Value().Get(r, c) == if c < i then Field(xs, c, r) else 0.0
    {
      if |xs[i]| != inputSize {
        return Failure(WrongColumnCount(i, inputSize, |xs[i]|));
      }
      for c := 0 to inputSize
        invariant fresh(inputX) && inputX.Valid() && inputX.rows == inputSize && inputX.cols == sampleCount
        invariant forall r: nat, c': nat :: r < inputSize && c' < sampleCount ==>
                    inputX.Value().Get(r, c') == if c' < i || (c' == i && r < c) then Field(xs, c', r) else 0.0
      {
        inputX.Set(c, i, xs[i][c]);
      }
    }
    Ext(inputX.Value(), Features(xs, inputSize));
    return Success(inputX);
  }

  /** The label half of loading: the one-hot target, or the complaint about the first bad label record. */
  method ReadLabels(ys: seq<seq<nat>>, outputSize: nat) returns (r: Result<Matrix, LoadError>)
    ensures r.Success? ==> fresh(r.value) && r.value.Valid() && FirstBadLabel(ys, outputSize).None? &&
                           r.value.Value() == OneHot(ys, outputSize)
    ensures r.Failure? ==> FirstBadLabel(ys, outputSize).Some? &&
                           r.error == LabelError(ys[FirstBadLabel(ys, outputSize).value],
                                                 FirstBadLabel(ys, outputSize).value, outputSize)
  {
    var sampleCount := |ys|;
    var yTrue := new Matrix(outputSize, sampleCount);
    for i := 0 to sampleCount
      invariant fresh(yTrue) && yTrue.Valid() && yTrue.rows == outputSize && yTrue.cols == sampleCount
      invariant forall j :: 0 <= j < i ==> LabelOk(ys[j], outputSize)
      invariant forall r: nat, c: nat :: r < outputSize && c < sampleCount ==>
                  yTrue.Value().Get(r, c) == if c < i && Hot(ys, c, r) then 1.0 else 0.0
    {
      if |ys[i]| != 1 {
        return Failure(WrongLabelColumns(i, |ys[i]|));
      }
      var classIndex := ys[i][0];
      if classIndex >= outputSize {
        return Failure(LabelOutOfRange(classIndex, outputSize));
      }
      yTrue.Set(classIndex, i, 1.0);
    }
    Ext(yTrue.Value(), OneHot(ys, outputSize));
    return Success(yTrue);
  }

  /**
    Fills the input matrix record by record and the target label by label,
    returning at the first bad record.
   */
  method LoadData(xs: seq<seq<real>>, ys: seq<seq<nat>>, inputSize: nat, outputSize: nat)
    returns (r: Result<(Matrix, Matrix), LoadError>)
    ensures r.Success? ==> fresh(r.value.0) && fresh(r.value.1) && r.value.0.Valid() && r.value.1.Valid()
    ensures Values(r) == Load(xs, ys, inputSize, outputSize)
  {
    if |xs| == 0 {
      return Failure(NoData);
    }
    var features := ReadFeatures(xs, inputSize);
    if features.Failure? {
      return Failure(features.error);
    }
    if |ys| != |xs| {
      return Failure(SampleCountMismatch(|xs|, |ys|));
    }
    var labels := ReadLabels(ys, outputSize);
    if labels.Failure? {
      return Failure(labels.error);
    }
    return Success((features.value, labels.value));
  }
}
