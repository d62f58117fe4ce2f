/**
  The network: an ordered list of layers.  Forward runs the layers in
  insertion order, backward runs them from the last to the first, and train
  repeats forward then backward on the full input for a number of epochs,
  recording loss and accuracy at epoch 1 and at every tenth epoch.
 */
module Networks {
  import opened Wrappers
  import opened MatrixValues
  import opened Matrices
  import opened Layers

  // ---------------------------------------------------------------------
  // Passes over a sequence of layer states
  // ---------------------------------------------------------------------

  /**
    The forward pass through the first n layers: the states with those n
    updated (the others as they were) and the output, or None when some layer
    refuses the value it receives.
   */
  ghost function ForwardThrough(ss: seq<LState>, n: nat, x: Mat): (res: Option<(seq<LState>, Mat)>)
    requires n <= |ss|
    ensures res.Some? ==> |res.value.0| == |ss| && res.value.1.Valid() && res.value.1.cols == x.cols
  {
    if n == 0 then
      if x.Valid() then Some((ss, x)) else None
    else
      match ForwardThrough(ss, n - 1, x)
      case None => None
      case Some((ts, y)) =>
        if CanForward(ss[n - 1], y) then
          var (s', z) := ForwardStep(ss[n - 1], y);
          Some((ts[n - 1 := s'], z))
        else None
  }

  /**
    The backward pass through layers n-1 down to 0, starting from gradient g:
    the updated states and the last gradient, or None when a layer refuses its
    gradient.
   */
  ghost function BackwardThrough(ss: seq<LState>, n: nat, g: Mat, lr: real): (res: Option<(seq<LState>, Mat)>)
    requires n <= |ss|
    ensures res.Some? ==> |res.value.0| == |ss|
    decreases n
  {
    if n == 0 then Some((ss, g))
    else if !CanBackward(ss[n - 1], g) then None
    else
      var (s', g') := BackwardStep(ss[n - 1], g, lr);
      BackwardThrough(ss[n - 1 := s'], n - 1, g', lr)
  }

  /** A forward pass that gets through n layers also gets through every shorter prefix. */
  lemma {:induction false} ForwardPrefix(ss: seq<LState>, m: nat, n: nat, x: Mat)
    requires m <= n <= |ss| && ForwardThrough(ss, n, x).Some?
    ensures ForwardThrough(ss, m, x).Some?
    decreases n
  {
    if m < n {
      ForwardPrefix(ss, m, n - 1, x);
    }
  }

  /** A forward pass through the first n layers leaves the states of the others as they were. */
  lemma {:induction false} ForwardThroughKeeps(ss: seq<LState>, n: nat, x: Mat)
    requires n <= |ss| && ForwardThrough(ss, n, x).Some?
    ensures forall j :: n <= j < |ss| ==> ForwardThrough(ss, n, x).value.0[j] == ss[j]
  {
    if n > 0 {
      ForwardThroughKeeps(ss, n - 1, x);
    }
  }

  /** One more layer: a pass that gets through n + 1 layers extends the pass through n by layer n's step. */
  lemma ForwardThroughStep(ss: seq<LState>, n: nat, x: Mat, ts: seq<LState>, y: Mat)
    requires n < |ss| && ForwardThrough(ss, n, x) == Some((ts, y)) && ForwardThrough(ss, n + 1, x).Some?
    ensures ts[n] == ss[n] && CanForward(ts[n], y)
    ensures ForwardThrough(ss, n + 1, x) == Some((ts[n := ForwardStep(ss[n], y).0], ForwardStep(ss[n], y).1))
  {
    ForwardThroughKeeps(ss, n, x);
  }

  function Kinds(ss: seq<LState>): (ks: seq<Kind>)
    ensures |ks| == |ss| && forall i :: 0 <= i < |ss| ==> ks[i] == KindOf(ss[i])
  {
    seq(|ss|, i requires 0 <= i < |ss| => KindOf(ss[i]))
  }

  predicate AllValid(ss: seq<LState>)
  {
    forall i :: 0 <= i < |ss| ==> StateValid(ss[i])
  }

  /**
    Whether forward succeeds, and the shape of its output, depends only on the
    kinds and shapes of the layers, not on their current parameter values.
   */
  lemma {:induction false} ForwardDependsOnKinds(ss: seq<LState>, ts: seq<LState>, n: nat, x: Mat)
    requires n <= |ss| == |ts| && Kinds(ss) == Kinds(ts) && AllValid(ts)
    requires ForwardThrough(ss, n, x).Some?
    ensures ForwardThrough(ts, n, x).Some?
    ensures ForwardThrough(ts, n, x).value.1.rows == ForwardThrough(ss, n, x).value.1.rows
    ensures AllValid(ForwardThrough(ts, n, x).value.0)
  {
    if n > 0 {
      ForwardDependsOnKinds(ss, ts, n - 1, x);
      assert KindOf(ss[n - 1]) == Kinds(ss)[n - 1] == Kinds(ts)[n - 1] == KindOf(ts[n - 1]);
    }
  }

  /** A backward pass keeps every layer's kind and validity. */
  lemma {:induction false} BackwardKeepsKinds(ss: seq<LState>, n: nat, g: Mat, lr: real)
    requires n <= |ss| && BackwardThrough(ss, n, g, lr).Some? && AllValid(ss)
    ensures Kinds(BackwardThrough(ss, n, g, lr).value.0) == Kinds(ss)
    ensures AllValid(BackwardThrough(ss, n, g, lr).value.0)
    decreases n
  {
    if n > 0 {
      var (s', g') := BackwardStep(ss[n - 1], g, lr);
      var ts := ss[n - 1 := s'];
      BackwardKeepsKinds(ts, n - 1, g', lr);
      assert Kinds(ts) == Kinds(ss);
    }
  }

  /**
    After a forward pass through the first k layers, the backward pass from
    any gradient shaped like the output gets through all k layers: each layer
    hands down a gradient shaped like its cached input, which is the output
    of the layer below.
   */
  lemma {:induction false} BackwardAfterForward(ss: seq<LState>, k: nat, x: Mat, ts: seq<LState>, g: Mat, lr: real)
    requires k <= |ss| == |ts| && x.cols > 0 && ForwardThrough(ss, k, x).Some?
    requires forall j :: 0 <= j < k ==> ts[j] == ForwardThrough(ss, k, x).value.0[j]
    requires g.Valid() && g.rows == ForwardThrough(ss, k, x).value.1.rows && g.cols == ForwardThrough(ss, k, x).value.1.cols
    ensures BackwardThrough(ts, k, g, lr).Some?
    decreases k
  {
    if k > 0 {
      var (ps, y) := ForwardThrough(ss, k - 1, x).value;
      var (s', z) := ForwardStep(ss[k - 1], y);
      assert ts[k - 1] == s';
      BackwardAcceptsForwardShape(ss[k - 1], y, g);
      var (s'', g') := BackwardStep(ts[k - 1], g, lr);
      var us := ts[k - 1 := s''];
      assert forall j :: 0 <= j < k - 1 ==> us[j] == ps[j];
      BackwardAfterForward(ss, k - 1, x, us, g', lr);
    }
  }

  // ---------------------------------------------------------------------
  // Accuracy
  // ---------------------------------------------------------------------

  /** The running (maximum, class) after scanning rows [0, n) of column c, starting from (-1, 0). */
  function ArgMaxUpTo(m: Mat, c: nat, n: nat): (real, nat)
    requires m.Valid() && c < m.cols && n <= m.rows
  {
    if n == 0 then (-1.0, 0)
    else
      var (best, cls) := ArgMaxUpTo(m, c, n - 1);
      if m.Get(n - 1, c) > best then (m.Get(n - 1, c), n - 1) else (best, cls)
  }

  /** The predicted class of sample c. */
  function PredictedClass(m: Mat, c: nat): nat
    requires m.Valid() && c < m.cols
  {
    ArgMaxUpTo(m, c, m.rows).1
  }

  lemma {:induction false} ArgMaxUpToMeaning(m: Mat, c: nat, n: nat)
    requires m.Valid() && c < m.cols && n <= m.rows
    ensures var (best, cls) := ArgMaxUpTo(m, c, n);
      (forall r: nat :: r < n ==> m.Get(r, c) <= best) &&
      ((forall r: nat :: r < n ==> m.Get(r, c) <= -1.0) ==> best == -1.0 && cls == 0) &&
      ((exists r: nat :: r < n && m.Get(r, c) > -1.0) ==>
         cls < n && best == m.Get(cls, c) && forall r: nat :: r < cls ==> m.Get(r, c) < best)
  {
    if n > 0 {
      ArgMaxUpToMeaning(m, c, n - 1);
      var (best, cls) := ArgMaxUpTo(m, c, n - 1);
      if m.Get(n - 1, c) <= best && exists r: nat :: r < n && m.Get(r, c) > -1.0 {
        var r: nat :| r < n && m.Get(r, c) > -1.0;
      }
    }
  }

  /**
    The predicted class is the lowest row attaining the column's maximum, when
    some entry exceeds -1; when every entry is at most -1 it is row 0.
   */
  lemma PredictedClassIsFirstMax(m: Mat, c: nat)
    requires m.Valid() && c < m.cols
    ensures (forall r: nat :: r < m.rows ==> m.Get(r, c) <= -1.0) ==> PredictedClass(m, c) == 0
    ensures (exists r: nat :: r < m.rows && m.Get(r, c) > -1.0) ==>
              var p := PredictedClass(m, c);
              p < m.rows && m.Get(p, c) > -1.0 &&
              (forall r: nat :: r < m.rows ==> m.Get(r, c) <= m.Get(p, c)) &&
              (forall r: nat :: r < p ==> m.Get(r, c) < m.Get(p, c))
  {
    ArgMaxUpToMeaning(m, c, m.rows);
  }

  /**
    Whether the true-class scan of column c, reading rows r, r+1, ... below n
    at buffer position row + c * m.rows, stays inside the buffer until it
    stops at a read above 0.9 or at row n.  The scan counts rows up to the
    prediction's height n, so with n > m.rows it reads into later columns.
   */
  predicate ScanInBounds(m: Mat, n: nat, c: nat, r: nat)
    decreases n - r
  {
    r >= n || (r + c * m.rows < |m.data| && (m.Read(r, c) > 0.9 || ScanInBounds(m, n, c, r + 1)))
  }

  /** The first row in [r, n) whose read in column c exceeds 0.9, or 0 when there is none. */
  function FirstHot(m: Mat, n: nat, c: nat, r: nat): nat
    requires ScanInBounds(m, n, c, r)
    decreases n - r
  {
    if r >= n then 0
    else if m.Read(r, c) > 0.9 then r
    else FirstHot(m, n, c, r + 1)
  }

  /** The true class of sample c, scanning n rows of the target. */
  function TrueClass(m: Mat, n: nat, c: nat): nat
    requires ScanInBounds(m, n, c, 0)
  {
    FirstHot(m, n, c, 0)
  }

  /** Row i of column c is read inside the buffer and is not above 0.9. */
  predicate Cold(m: Mat, c: nat, i: nat)
  {
    i + c * m.rows < |m.data| && m.Read(i, c) <= 0.9
  }

  /**
    The scan stops at the first read above 0.9, every read before it lying in
    the buffer; or it reads all rows [r, n) in the buffer, finds none, and
    answers 0.
   */
  lemma {:induction false} FirstHotMeaning(m: Mat, n: nat, c: nat, r: nat)
    requires ScanInBounds(m, n, c, r)
    ensures var t := FirstHot(m, n, c, r);
      || (r <= t < n && t + c * m.rows < |m.data| && m.Read(t, c) > 0.9 && forall i: nat :: r <= i < t ==> Cold(m, c, i))
      || (t == 0 && forall i: nat :: r <= i < n ==> Cold(m, c, i))
    decreases n - r
  {
    if r < n && m.Read(r, c) <= 0.9 {
      FirstHotMeaning(m, n, c, r + 1);
    }
  }

  /** Within a valid matrix the scan of one of its columns over its own rows never leaves the buffer. */
  lemma {:induction false} ScanInShape(m: Mat, c: nat, r: nat)
    requires m.Valid() && c < m.cols && r <= m.rows
    ensures ScanInBounds(m, m.rows, c, r)
    decreases m.rows - r
  {
    if r < m.rows {
      ReadIsGet(m, r, c);
      ScanInShape(m, c, r + 1);
    }
  }

  /** In a target of the prediction's own shape, the true class is the first row above 0.9, or 0 when no row is. */
  lemma TrueClassIsFirstHot(m: Mat, c: nat)
    requires m.Valid() && c < m.cols
    ensures ScanInBounds(m, m.rows, c, 0)
    ensures (forall i: nat :: i < m.rows ==> m.Get(i, c) <= 0.9) ==> TrueClass(m, m.rows, c) == 0
    ensures (exists i: nat :: i < m.rows && m.Get(i, c) > 0.9) ==>
              var t := TrueClass(m, m.rows, c);
              t < m.rows && m.Get(t, c) > 0.9 && forall i: nat :: i < t ==> m.Get(i, c) <= 0.9
  {
    ScanInShape(m, c, 0);
    FirstHotMeaning(m, m.rows, c, 0);
    forall i: nat | i < m.rows ensures Cold(m, c, i) <==> m.Get(i, c) <= 0.9 {
      ReadIsGet(m, i, c);
    }
  }

  /** A one-hot column with its 1.0 at row k has true class k. */
  lemma OneHotTrueClass(m: Mat, c: nat, k: nat)
    requires m.Valid() && c < m.cols && k < m.rows
    requires forall i: nat :: i < m.rows ==> m.Get(i, c) == (if i == k then 1.0 else 0.0)
    ensures ScanInBounds(m, m.rows, c, 0) && TrueClass(m, m.rows, c) == k
  {
    TrueClassIsFirstHot(m, c);
    assert m.Get(k, c) > 0.9;
  }

  /** Every column's true-class scan over the prediction's rows stays inside the target's buffer. */
  ghost predicate Scannable(pred: Mat, truth: Mat)
  {
    forall c: nat :: c < pred.cols ==> ScanInBounds(truth, pred.rows, c, 0)
  }

  /** A target of the prediction's own shape can always be scanned. */
  lemma SameShapeScannable(pred: Mat, truth: Mat)
    requires truth.Valid() && truth.rows == pred.rows && truth.cols == pred.cols
    ensures Scannable(pred, truth)
  {
    forall c: nat | c < pred.cols ensures ScanInBounds(truth, pred.rows, c, 0) {
      ScanInShape(truth, c, 0);
    }
  }

  /** The number of samples among the first n whose predicted and true classes agree. */
  function Correct(pred: Mat, truth: Mat, n: nat): (k: nat)
    requires pred.Valid() && Scannable(pred, truth) && n <= pred.cols
    ensures k <= n
  {
    if n == 0 then 0
    else Correct(pred, truth, n - 1) + (if PredictedClass(pred, n - 1) == TrueClass(truth, pred.rows, n - 1) then 1 else 0)
  }

  /** The fraction of samples classified correctly. */
  function Accuracy(pred: Mat, truth: Mat): (a: real)
    requires pred.Valid() && Scannable(pred, truth) && pred.cols > 0
    ensures 0.0 <= a <= 1.0
  {
    var k := Correct(pred, truth, pred.cols);
    FractionInUnit(k, pred.cols);
    k as real / pred.cols as real
  }

  lemma FractionInUnit(k: nat, n: nat)
    requires 0 < n && k <= n
    ensures 0.0 <= k as real / n as real <= 1.0
  {
  }

  // ---------------------------------------------------------------------
  // Training
  // ---------------------------------------------------------------------

  /** TrainingMetric.epoch is an unsigned 32-bit field. */
  const EpochModulus: nat := 0x1_0000_0000

  /** One recorded point of the training history; `epoch` is the epoch number truncated to 32 bits. */
  datatype TrainingMetric = TrainingMetric(epoch: nat, loss: real, accuracy: real)

  /** Metrics are recorded at epoch 1 and at every multiple of 10. */
  predicate Recorded(epoch: nat)
  {
    epoch % 10 == 0 || epoch == 1
  }

  /** The epoch fields recorded by a run of the given number of epochs. */
  function Schedule(epochs: nat): seq<nat>
  {
    if epochs == 0 then []
    else Schedule(epochs - 1) + (if Recorded(epochs) then [epochs % EpochModulus] else [])
  }

  /** A run of epochs > 0 records 1 + epochs / 10 metrics, and none when epochs == 0. */
  lemma {:induction false} ScheduleLength(epochs: nat)
    ensures |Schedule(epochs)| == if epochs == 0 then 0 else 1 + epochs / 10
  {
    if epochs > 1 {
      ScheduleLength(epochs - 1);
      assert epochs / 10 == (epochs - 1) / 10 + (if epochs % 10 == 0 then 1 else 0);
    } else if epochs == 1 {
      assert Schedule(1) == Schedule(0) + [1];
    }
  }

  /**
    Below 2^32 epochs the recorded epochs are exactly the recorded epoch
    numbers in 1..epochs, in strictly increasing order.
   */
  lemma {:induction false} ScheduleExact(epochs: nat)
    requires epochs < EpochModulus
    ensures forall e :: e in Schedule(epochs) <==> 1 <= e <= epochs && Recorded(e)
    ensures forall i, j :: 0 <= i < j < |Schedule(epochs)| ==> Schedule(epochs)[i] < Schedule(epochs)[j]
  {
    if epochs > 0 {
      ScheduleExact(epochs - 1);
      var p := Schedule(epochs - 1);
      if Recorded(epochs) {
        assert Schedule(epochs) == p + [epochs];
        forall i | 0 <= i < |p| ensures p[i] < epochs {
          assert p[i] in p;
        }
      }
    }
  }

  /** The prediction's shape matches the target and the batch is non-empty, so a round can run. */
  ghost predicate Trainable(ss: seq<LState>, x: Mat, y: Mat)
  {
    |ss| > 0 && x.cols > 0 && y.Valid() &&
    match ForwardThrough(ss, |ss|, x)
    case None => false
    case Some((_, out)) => out.rows == y.rows && out.cols == y.cols
  }

  /** One epoch: forward on the full input, then backward from the target; the new states, the loss and the accuracy. */
  ghost function Epoch(ss: seq<LState>, x: Mat, y: Mat, lr: real, loss: (Mat, Mat) -> real): (res: (seq<LState>, real, real))
    requires Trainable(ss, x, y)
    ensures |res.0| == |ss| && Trainable(res.0, x, y) && 0.0 <= res.2 <= 1.0
  {
    var (fs, pred) := ForwardThrough(ss, |ss|, x).value;
    BackwardAfterForward(ss, |ss|, x, fs, y, lr);
    var bs := BackwardThrough(fs, |fs|, y, lr).value.0;
    AllValidAfterForward(ss, |ss|, x);
    BackwardKeepsKinds(fs, |fs|, y, lr);
    KindsAfterForward(ss, |ss|, x);
    ForwardDependsOnKinds(ss, bs, |ss|, x);
    SameShapeScannable(pred, y);
    (bs, loss(pred, y), Accuracy(pred, y))
  }

  lemma {:induction false} AllValidAfterForward(ss: seq<LState>, n: nat, x: Mat)
    requires n <= |ss| && ForwardThrough(ss, n, x).Some?
    ensures forall j :: 0 <= j < n ==> StateValid(ForwardThrough(ss, n, x).value.0[j])
    decreases n
  {
    if n > 0 {
      AllValidAfterForward(ss, n - 1, x);
    }
  }

  lemma {:induction false} KindsAfterForward(ss: seq<LState>, n: nat, x: Mat)
    requires n <= |ss| && ForwardThrough(ss, n, x).Some?
    ensures Kinds(ForwardThrough(ss, n, x).value.0) == Kinds(ss)
    decreases n
  {
    if n > 0 {
      KindsAfterForward(ss, n - 1, x);
    }
  }

  /**
    A training run of the given number of epochs: the final states and the
    recorded history.  A run of no epochs runs no pass, so it needs nothing of
    the network or the data.
   */
  ghost function TrainRun(ss: seq<LState>, x: Mat, y: Mat, lr: real, loss: (Mat, Mat) -> real, epochs: nat)
    : (res: (seq<LState>, seq<TrainingMetric>))
    requires epochs > 0 ==> Trainable(ss, x, y)
    ensures |res.0| == |ss| && (Trainable(ss, x, y) ==> Trainable(res.0, x, y))
    decreases epochs
  {
    if epochs == 0 then (ss, [])
    else
      var (s1, h) := TrainRun(ss, x, y, lr, loss, epochs - 1);
      var (s2, l, a) := Epoch(s1, x, y, lr, loss);
      (s2, h + if Recorded(epochs) then [TrainingMetric(epochs % EpochModulus, l, a)] else [])
  }

  /** A run of e > 0 epochs is the run of e - 1 epochs followed by one more epoch. */
  lemma TrainRunStep(ss: seq<LState>, x: Mat, y: Mat, lr: real, loss: (Mat, Mat) -> real, e: nat,
                     s1: seq<LState>, h: seq<TrainingMetric>, s2: seq<LState>, l: real, a: real)
    requires Trainable(ss, x, y) && e > 0
    requires (s1, h) == TrainRun(ss, x, y, lr, loss, e - 1)
    requires (s2, l, a) == Epoch(s1, x, y, lr, loss)
    ensures TrainRun(ss, x, y, lr, loss, e) == (s2, h + if Recorded(e) then [TrainingMetric(e % EpochModulus, l, a)] else [])
  { }

  function EpochsOf(h: seq<TrainingMetric>): (es: seq<nat>)
    ensures |es| == |h| && forall i :: 0 <= i < |h| ==> es[i] == h[i].epoch
  {
    if h == [] then [] else EpochsOf(h[..|h| - 1]) + [h[|h| - 1].epoch]
  }

  lemma EpochsOfSnoc(h: seq<TrainingMetric>, m: TrainingMetric)
    ensures EpochsOf(h + [m]) == EpochsOf(h) + [m.epoch]
  {
    assert (h + [m])[..|h|] == h;
  }

  /** Whether every recorded accuracy lies in [0, 1]. */
  predicate AccuraciesInUnit(h: seq<TrainingMetric>)
  {
    forall i :: 0 <= i < |h| ==> 0.0 <= h[i].accuracy <= 1.0
  }

  /** Appending epoch e's metrics when e is recorded extends a history that follows the schedule of e - 1 epochs. */
  lemma HistoryStep(h: seq<TrainingMetric>, e: nat, l: real, a: real)
    requires e > 0 && EpochsOf(h) == Schedule(e - 1) && AccuraciesInUnit(h) && 0.0 <= a <= 1.0
    ensures var h' := h + if Recorded(e) then [TrainingMetric(e % EpochModulus, l, a)] else [];
      EpochsOf(h') == Schedule(e) && AccuraciesInUnit(h')
  {
    if Recorded(e) {
      EpochsOfSnoc(h, TrainingMetric(e % EpochModulus, l, a));
    } else {
      assert h + [] == h;
    }
  }

  /** The history of a run records exactly the scheduled epochs, and each accuracy lies in [0, 1]. */
  lemma {:induction false} HistoryFollowsSchedule(ss: seq<LState>, x: Mat, y: Mat, lr: real, loss: (Mat, Mat) -> real, epochs: nat)
    requires epochs > 0 ==> Trainable(ss, x, y)
    ensures EpochsOf(TrainRun(ss, x, y, lr, loss, epochs).1) == Schedule(epochs)
    ensures AccuraciesInUnit(TrainRun(ss, x, y, lr, loss, epochs).1)
  {
    if epochs > 0 {
      HistoryFollowsSchedule(ss, x, y, lr, loss, epochs - 1);
      var before := TrainRun(ss, x, y, lr, loss, epochs - 1);
      var epoch := Epoch(before.0, x, y, lr, loss);
      TrainRunStep(ss, x, y, lr, loss, epochs, before.0, before.1, epoch.0, epoch.1, epoch.2);
      HistoryStep(before.1, epochs, epoch.1, epoch.2);
    }
  }

  // ---------------------------------------------------------------------
  // The network object
  // ---------------------------------------------------------------------

  class Network {
    var layers: seq<Layer>
    /** The matrices owned by the layers. */
    ghost var Repr: set<object>
    /** The layers' states as values, in order. */
    ghost var states: seq<LState>

    ghost predicate Valid()
      reads this, Repr
    {
      |states| == |layers| && this !in Repr &&
      (forall i :: 0 <= i < |layers| ==> layers[i].Repr() <= Repr) &&
      (forall i :: 0 <= i < |layers| ==> layers[i].Valid() && layers[i].State() == states[i]) &&
      (forall i, j :: 0 <= i < j < |layers| ==> layers[i].Repr() !! layers[j].Repr())
    }

    /**
      After layer k alone has written its own matrices and states[k] has been
      refreshed, the network is valid again: the other layers own disjoint
      matrices, so their states are those recorded before.
     */
    twostate lemma OthersUntouched(k: nat)
      requires old(Valid()) && k < |layers| && layers == old(layers) && Repr == old(Repr)
      requires states == old(states)[k := layers[k].State()]
      requires layers[k].Valid()
      requires forall o :: o in old(Repr) && o !in layers[k].Repr() ==> unchanged(o)
      requires unchanged(this`layers)
      ensures Valid()
    {
      forall j | 0 <= j < |layers| ensures layers[j].Valid() && layers[j].State() == states[j] {
        if j != k {
          assert layers[j].Repr() !! layers[k].Repr();
          Untouched(layers[j]);
        }
      }
    }

    /** A network without layers. */
    constructor ()
      ensures Valid() && layers == [] && states == [] && Repr == {}
    {
      layers := [];
      Repr := {};
      states := [];
    }

    /** Appends a layer; the network takes ownership, so the layer shares no matrix with it. */
    method AddLayer(layer: Layer)
      requires Valid() && layer.Valid() && layer.Repr() !! Repr
      modifies this
      ensures Valid() && layers == old(layers) + [layer] && states == old(states) + [layer.State()]
      ensures Repr == old(Repr) + layer.Repr()
    {
      layers := layers + [layer];
      states := states + [layer.State()];
      Repr := Repr + layer.Repr();
    }

    /** The first i layers have run forward from x and `output`, which the network does not own, goes to layer i. */
    ghost predicate ForwardAt(s0: seq<LState>, x: Mat, i: nat, output: Matrix)
      reads this, Repr, output
    {
      Valid() && i <= |layers| == |s0| && output.Valid() && output !in Repr &&
      ForwardThrough(s0, i, x) == Some((states, output.Value()))
    }

    /**
      Layer i's forward pass on the output x of the first i layers, with
      states[i] refreshed: the pass has then gone through i + 1 layers.
     */
    method ForwardLayer(i: nat, x: Matrix, ghost s0: seq<LState>, ghost x0: Mat) returns (y: Matrix)
      requires ForwardAt(s0, x0, i, x) && i < |layers| && ForwardThrough(s0, |s0|, x0).Some?
      modifies this, Repr
      ensures layers == old(layers) && Repr == old(Repr) && fresh(y)
      ensures ForwardAt(s0, x0, i + 1, y)
    {
      ForwardPrefix(s0, i + 1, |layers|, x0);
      ForwardThroughStep(s0, i, x0, states, x.Value());
      y := layers[i].Forward(x);
      states := states[i := layers[i].State()];
      OthersUntouched(i);
    }

    /** Layer i accepts the gradient g, which the network does not own. */
    ghost predicate AcceptsGradient(i: nat, g: Matrix)
      reads this, Repr, g
    {
      Valid() && i < |layers| && g.Valid() && g !in Repr && CanBackward(states[i], g.Value())
    }

    /** Layer i's backward pass from gradient g, with states[i] refreshed. */
    method BackwardLayer(i: nat, g: Matrix, learningRate: real) returns (h: Matrix)
      requires AcceptsGradient(i, g)
      modifies this, Repr
      ensures Valid() && layers == old(layers) && Repr == old(Repr) && fresh(h) && h.Valid()
      ensures (states[i], h.Value()) == BackwardStep(old(states)[i], g.Value(), learningRate)
      ensures states == old(states)[i := states[i]]
    {
      h := layers[i].Backward(g, learningRate);
      states := states[i := layers[i].State()];
      OthersUntouched(i);
    }

    /** Runs the layers' forward passes in order on a copy of the input. */
    method Forward(input: Matrix) returns (output: Matrix)
      requires Valid() && input.Valid() && input !in Repr
      requires ForwardThrough(states, |layers|, input.Value()).Some?
      modifies this, Repr
      ensures Valid() && layers == old(layers) && Repr == old(Repr) && fresh(output) && output.Valid()
      ensures ForwardThrough(old(states), |layers|, input.Value()) == Some((states, output.Value()))
    {
      ghost var s0 := states;
      ghost var x := input.Value();
      output := input.Clone();
      for i := 0 to |layers|
        invariant layers == old(layers) && Repr == old(Repr) && fresh(output)
        invariant ForwardAt(s0, x, i, output)
      {
        output := ForwardLayer(i, output, s0, x);
      }
    }

    /** Layers i and above have run backward and `gradient`, which the network does not own, goes to layer i - 1. */
    ghost predicate BackwardAt(i: nat, gradient: Matrix, learningRate: real, goal: Option<(seq<LState>, Mat)>)
      reads this, Repr, gradient
    {
      Valid() && i < |layers| && gradient.Valid() && gradient !in Repr &&
      BackwardThrough(states, i, gradient.Value(), learningRate) == goal
    }

    /**
      The last layer receives the target; then layers last-1 down to 0 each
      receive the gradient returned by the layer above.  The network needs at
      least one layer.
     */
    method Backward(yTrue: Matrix, learningRate: real)
      requires Valid() && yTrue.Valid() && yTrue !in Repr && |layers| > 0
      requires BackwardThrough(states, |layers|, yTrue.Value(), learningRate).Some?
      modifies this, Repr
      ensures Valid() && layers == old(layers) && Repr == old(Repr)
      ensures states == BackwardThrough(old(states), |layers|, yTrue.Value(), learningRate).value.0
    {
      ghost var goal := BackwardThrough(states, |layers|, yTrue.Value(), learningRate);
      var i: nat := |layers| - 1;
      assert AcceptsGradient(i, yTrue);
      var gradient := BackwardLayer(i, yTrue, learningRate);
      while i > 0
        invariant layers == old(layers) && Repr == old(Repr) && fresh(gradient)
        invariant BackwardAt(i, gradient, learningRate, goal)
      {
        assert AcceptsGradient(i - 1, gradient);
        i := i - 1;
        gradient := BackwardLayer(i, gradient, learningRate);
      }
    }

    /**
      The fraction of samples whose predicted class (first maximal row above
      -1) equals its true class (first row above 0.9).
     */
    method CalculateAccuracy(yPred: Matrix, yTrue: Matrix) returns (accuracy: real)
      requires yPred.Valid() && yTrue.Valid() && Scannable(yPred.Value(), yTrue.Value())
      requires yPred.cols > 0
      ensures accuracy == Accuracy(yPred.Value(), yTrue.Value())
      ensures 0.0 <= accuracy <= 1.0
    {
      var batchSize := yPred.cols;
      var numClasses := yPred.rows;
      var correctPredictions := 0;
      for c := 0 to batchSize
        invariant correctPredictions == Correct(yPred.Value(), yTrue.Value(), c)
      {
        var maxPredVal := -1.0;
        var predictedClass := 0;
        for r := 0 to numClasses
          invariant (maxPredVal, predictedClass) == ArgMaxUpTo(yPred.Value(), c, r)
        {
          if yPred.Get(r, c) > maxPredVal {
            maxPredVal := yPred.Get(r, c);
            predictedClass := r;
          }
        }
        var trueClass := 0;
        var r := 0;
        while r < numClasses
          invariant r <= numClasses && trueClass == 0 && ScanInBounds(yTrue.Value(), numClasses, c, r)
          invariant FirstHot(yTrue.Value(), numClasses, c, r) == TrueClass(yTrue.Value(), numClasses, c)
        {
          if yTrue.Value().Read(r, c) > 0.9 {
            trueClass := r;
            break;
          }
          r := r + 1;
        }
        if predictedClass == trueClass {
          correctPredictions := correctPredictions + 1;
        }
      }
      accuracy := correctPredictions as real / batchSize as real;
    }

    /** One epoch of training: forward on the full input, loss and accuracy of the prediction, then backward from the target. */
    method TrainEpoch(inputX: Matrix, yTrue: Matrix, learningRate: real, loss: (Mat, Mat) -> real)
      returns (currentLoss: real, accuracy: real)
      requires Valid() && inputX.Valid() && yTrue.Valid() && inputX !in Repr && yTrue !in Repr
      requires Trainable(states, inputX.Value(), yTrue.Value())
      modifies this, Repr
      ensures Valid() && layers == old(layers) && Repr == old(Repr)
      ensures (states, currentLoss, accuracy) == Epoch(old(states), inputX.Value(), yTrue.Value(), learningRate, loss)
    {
      ghost var before := states;
      var yPred := Forward(inputX);
      currentLoss := loss(yPred.Value(), yTrue.Value());
      SameShapeScannable(yPred.Value(), yTrue.Value());
      accuracy := CalculateAccuracy(yPred, yTrue);
      BackwardAfterForward(before, |before|, inputX.Value(), states, yTrue.Value(), learningRate);
      Backward(yTrue, learningRate);
    }

    /**
      The network is at the end of epoch e of a run of `epochs` epochs from
      states s0 on input x and target y, with the history recorded so far.
     */
    ghost predicate AtEpoch(inputX: Matrix, yTrue: Matrix, learningRate: real, loss: (Mat, Mat) -> real,
                            s0: seq<LState>, x: Mat, y: Mat, e: nat, epochs: nat, history: seq<TrainingMetric>)
      reads this, Repr, inputX, yTrue
    {
      Valid() && inputX.Valid() && yTrue.Valid() && inputX !in Repr && yTrue !in Repr &&
      inputX.Value() == x && yTrue.Value() == y && e <= epochs && (epochs > 0 ==> Trainable(s0, x, y)) &&
      (states, history) == TrainRun(s0, x, y, learningRate, loss, e)
    }

    /**
      Epoch done + 1 of a run from states s0: given the states and history after
      done epochs, leaves the states after done + 1 epochs and returns the history
      with that epoch's metrics appended when its number is 1 or a multiple of 10.
     */
    method TrainStep(inputX: Matrix, yTrue: Matrix, learningRate: real, loss: (Mat, Mat) -> real,
                     ghost s0: seq<LState>, ghost x: Mat, ghost y: Mat, done: nat, ghost epochs: nat,
                     history: seq<TrainingMetric>)
      returns (history': seq<TrainingMetric>)
      requires AtEpoch(inputX, yTrue, learningRate, loss, s0, x, y, done, epochs, history) && done < epochs
      modifies this, Repr
      ensures layers == old(layers) && Repr == old(Repr)
      ensures AtEpoch(inputX, yTrue, learningRate, loss, s0, x, y, done + 1, epochs, history')
    {
      ghost var s1 := states;
      var epoch := done + 1;
      var currentLoss, accuracy := TrainEpoch(inputX, yTrue, learningRate, loss);
      assert inputX.Value() == x && yTrue.Value() == y;
      assert (states, currentLoss, accuracy) == Epoch(s1, x, y, learningRate, loss);
      TrainRunStep(s0, x, y, learningRate, loss, epoch, s1, history, states, currentLoss, accuracy);
      history' := history;
      if epoch % 10 == 0 || epoch == 1 {
        history' := history' + [TrainingMetric(epoch % EpochModulus, currentLoss, accuracy)];
      }
      assert history' == history + if Recorded(epoch) then [TrainingMetric(epoch % EpochModulus, currentLoss, accuracy)] else [];
    }

    /**
      Runs `epochs` rounds of forward then backward on the full input and
      returns the metrics recorded at epoch 1 and every tenth epoch.  The loss
      function is a parameter.
     */
    method Train(inputX: Matrix, yTrue: Matrix, learningRate: real, epochs: nat, loss: (Mat, Mat) -> real)
      returns (history: seq<TrainingMetric>)
      requires Valid() && inputX.Valid() && yTrue.Valid() && inputX !in Repr && yTrue !in Repr
      requires epochs > 0 ==> Trainable(states, inputX.Value(), yTrue.Value())
      modifies this, Repr
      ensures Valid() && layers == old(layers) && Repr == old(Repr)
      ensures (states, history) == TrainRun(old(states), inputX.Value(), yTrue.Value(), learningRate, loss, epochs)
    {
      ghost var s0 := states;
      ghost var x := inputX.Value();
      ghost var y := yTrue.Value();
      history := [];
      for e := 0 to epochs
        invariant layers == old(layers) && Repr == old(Repr)
        invariant AtEpoch(inputX, yTrue, learningRate, loss, s0, x, y, e, epochs, history)
      {
        history := TrainStep(inputX, yTrue, learningRate, loss, s0, x, y, e, epochs, history);
      }
    }
  }
}
