/**
  The early-stopping callback: a patience counter over validation losses.
  The best loss starts at +infinity (None here); a call whose loss improves
  on the best by more than min_delta records it and clears the counter,
  any other call increments the counter and asks to stop once it reaches
  the patience.  The validation loss is a parameter of each call.
 */
module EarlyStop {
  import opened Wrappers

  /** The counters of the callback, as a value; bestLoss None stands for +infinity. */
  datatype StopState = StopState(bestLoss: Option<real>, wait: nat, stoppedEpoch: nat)

  /** The state of a freshly built callback, and of one after on_train_begin with zero stopped epochs. */
  const Initial := StopState(None, 0, 0)

  /** Whether valLoss + minDelta lies strictly below the best loss (every real lies below +infinity). */
  predicate Improves(minDelta: real, best: Option<real>, valLoss: real)
  {
    best.None? || valLoss + minDelta < best.value
  }

  /** One on_epoch_end call: the new counters and whether training should stop. */
  function Step(patience: nat, minDelta: real, s: StopState, valLoss: real): (StopState, bool)
  {
    if Improves(minDelta, s.bestLoss, valLoss) then
      (StopState(Some(valLoss), 0, s.stoppedEpoch), false)
    else if s.wait + 1 >= patience then
      (StopState(s.bestLoss, s.wait + 1, s.stoppedEpoch + 1), true)
    else
      (StopState(s.bestLoss, s.wait + 1, s.stoppedEpoch), false)
  }

  /**
    A sequence of on_epoch_end calls: the final counters and the answer of
    each call.  The last call asks to stop exactly when it leaves a non-zero
    wait that has reached the patience.
   */
  function Run(patience: nat, minDelta: real, s: StopState, losses: seq<real>): (r: (StopState, seq<bool>))
    ensures |r.1| == |losses|
    ensures losses != [] ==> r.1[|losses| - 1] == (r.0.wait > 0 && r.0.wait >= patience)
  {
    if losses == [] then (s, [])
    else
      var (s1, answers) := Run(patience, minDelta, s, losses[..|losses| - 1]);
      var (s2, stop) := Step(patience, minDelta, s1, losses[|losses| - 1]);
      (s2, answers + [stop])
  }

  /** For each call of a run, whether its loss improved on the best loss held before it. */
  function Improvements(patience: nat, minDelta: real, s: StopState, losses: seq<real>): (flags: seq<bool>)
    ensures |flags| == |losses|
  {
    if losses == [] then []
    else
      var prefix := losses[..|losses| - 1];
      Improvements(patience, minDelta, s, prefix)
        + [Improves(minDelta, Run(patience, minDelta, s, prefix).0.bestLoss, losses[|losses| - 1])]
  }

  /** The number of false entries after the last true one (all of them when there is no true). */
  function TrailingFalse(flags: seq<bool>): (n: nat)
    ensures n <= |flags|
    ensures forall i :: |flags| - n <= i < |flags| ==> !flags[i]
    ensures n < |flags| ==> flags[|flags| - 1 - n]
  {
    if flags == [] || flags[|flags| - 1] then 0 else TrailingFalse(flags[..|flags| - 1]) + 1
  }

  /** The number of true entries. */
  function CountTrue(flags: seq<bool>): (n: nat)
    ensures n <= |flags|
    ensures n == 0 <==> true !in flags
  {
    if flags == [] then 0
    else CountTrue(flags[..|flags| - 1]) + (if flags[|flags| - 1] then 1 else 0)
  }

  /**
    wait counts the consecutive non-improving calls since the last improving
    one; when no call of the run improved, it continues the initial count.
   */
  lemma {:induction false} WaitCountsMisses(patience: nat, minDelta: real, s: StopState, losses: seq<real>)
    ensures var flags := Improvements(patience, minDelta, s, losses);
      Run(patience, minDelta, s, losses).0.wait ==
        if true in flags then TrailingFalse(flags) else s.wait + |losses|
  {
    if losses != [] {
      var prefix := losses[..|losses| - 1];
      WaitCountsMisses(patience, minDelta, s, prefix);
      var flags := Improvements(patience, minDelta, s, losses);
      var before := Improvements(patience, minDelta, s, prefix);
      assert flags[..|flags| - 1] == before;
      if !flags[|flags| - 1] {
        assert true in flags <==> true in before;
      }
    }
  }

  /** stoppedEpoch grows by exactly the number of calls that answered true. */
  lemma {:induction false} StopsAreCounted(patience: nat, minDelta: real, s: StopState, losses: seq<real>)
    ensures Run(patience, minDelta, s, losses).0.stoppedEpoch
      == s.stoppedEpoch + CountTrue(Run(patience, minDelta, s, losses).1)
  {
    if losses != [] {
      var prefix := losses[..|losses| - 1];
      StopsAreCounted(patience, minDelta, s, prefix);
      var answers := Run(patience, minDelta, s, losses).1;
      assert answers[..|answers| - 1] == Run(patience, minDelta, s, prefix).1;
    }
  }

  /** "a is at most b" on losses extended with +infinity (None). */
  predicate AtMost(a: Option<real>, b: Option<real>)
  {
    b.None? || (a.Some? && a.value <= b.value)
  }

  /** With a non-negative min_delta the best loss never increases over a run. */
  lemma {:induction false} BestNeverIncreases(patience: nat, minDelta: real, s: StopState, losses: seq<real>)
    requires minDelta >= 0.0
    ensures AtMost(Run(patience, minDelta, s, losses).0.bestLoss, s.bestLoss)
  {
    if losses != [] {
      BestNeverIncreases(patience, minDelta, s, losses[..|losses| - 1]);
    }
  }

  /** The least element of a non-empty sequence of losses. */
  function Least(losses: seq<real>): (m: real)
    requires losses != []
    ensures m in losses && forall i :: 0 <= i < |losses| ==> m <= losses[i]
  {
    if |losses| == 1 then losses[0]
    else
      var m := Least(losses[..|losses| - 1]);
      assert forall i :: 0 <= i < |losses| - 1 ==> losses[..|losses| - 1][i] == losses[i];
      if losses[|losses| - 1] < m then losses[|losses| - 1] else m
  }

  /**
    From +infinity and with min_delta = 0, the best loss after a non-empty run
    is the least loss of the run.
   */
  lemma {:induction false} BestIsLeast(patience: nat, s: StopState, losses: seq<real>)
    requires s.bestLoss.None? && losses != []
    ensures Run(patience, 0.0, s, losses).0.bestLoss == Some(Least(losses))
  {
    if |losses| > 1 {
      BestIsLeast(patience, s, losses[..|losses| - 1]);
    }
  }

  /**
    From +infinity, a non-empty run ends with a finite best loss, and that
    best loss is one of the run's losses.
   */
  lemma {:induction false} BestIsAttained(patience: nat, minDelta: real, s: StopState, losses: seq<real>)
    requires losses != [] && s.bestLoss.None?
    ensures Run(patience, minDelta, s, losses).0.bestLoss.Some?
    ensures Run(patience, minDelta, s, losses).0.bestLoss.value in losses
  {
    var prefix := losses[..|losses| - 1];
    if |losses| > 1 {
      BestIsAttained(patience, minDelta, s, prefix);
      assert forall v :: v in prefix ==> v in losses;
    }
  }

  /** The callback object: configuration and counters, updated in place by each call. */
  class EarlyStopping {
    const patience: nat
    const minDelta: real
    var bestLoss: Option<real>
    var wait: nat
    var stoppedEpoch: nat

    function State(): StopState
      reads this
    {
      StopState(bestLoss, wait, stoppedEpoch)
    }

    /** best loss +infinity, both counters zero. */
    constructor (patience: nat, minDelta: real)
      ensures this.patience == patience && this.minDelta == minDelta
      ensures State() == Initial
    {
      this.patience := patience;
      this.minDelta := minDelta;
      bestLoss := None;
      wait := 0;
      stoppedEpoch := 0;
    }

    /** Nothing happens at the end of training. */
    method OnTrainEnd()
      ensures State() == old(State())
    {
    }

    /**
      An improving loss becomes the best and clears the counter; otherwise the
      counter grows by one and the call asks to stop exactly when it has
      reached the patience, counting that stop in stoppedEpoch.
     */
    method OnEpochEnd(valLoss: real) returns (stop: bool)
      modifies this
      ensures (State(), stop) == Step(patience, minDelta, old(State()), valLoss)
      ensures Improves(minDelta, old(bestLoss), valLoss) ==>
                bestLoss == Some(valLoss) && wait == 0 && !stop && stoppedEpoch == old(stoppedEpoch)
      ensures !Improves(minDelta, old(bestLoss), valLoss) ==>
                bestLoss == old(bestLoss) && wait == old(wait) + 1 && (stop <==> wait >= patience)
      ensures stoppedEpoch == old(stoppedEpoch) + (if stop then 1 else 0)
    {
      if bestLoss.None? || valLoss + minDelta < bestLoss.value {
        bestLoss := Some(valLoss);
        wait := 0;
      } else {
        wait := wait + 1;
        if wait >= patience {
          stoppedEpoch := stoppedEpoch + 1;
          return true;
        }
      }
      return false;
    }

    /** Forgets the best loss and the counter; stoppedEpoch is kept. */
    method OnTrainBegin()
      modifies this
      ensures State() == StopState(None, 0, old(stoppedEpoch))
    {
      bestLoss := None;
      wait := 0;
    }
  }
}
