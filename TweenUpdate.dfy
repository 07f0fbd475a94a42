/**
 * The per-frame behaviour of one FTween<float>: its fields as a value, the
 * Update step, the two step lambdas that Start registers, and what a run of
 * Update calls does.
 *
 * The value type T is `real`. UpdateFunction and UponCompletion are not
 * called; their effects are recorded in the state instead: `updates` lists
 * the values passed to UpdateFunction, in call order, and `completions`
 * counts the executions of UponCompletion.
 */
module TweenUpdate {
  import Easing

  /** EActiveTimerReturnType: what a step tells the driver that calls it. */
  datatype TimerReturn = Continue | Stop

  /** All fields of one FTween<float> that Update reads or writes. */
  datatype TweenState = TweenState(
    startValue: real,
    targetValue: real,
    currentValue: real,
    time: real,
    duration: real,
    delay: real,
    easing: real -> real,
    completionBound: bool,
    updates: seq<real>,
    completions: nat)

  /** The configuration that no step changes. */
  ghost predicate SameSetup(a: TweenState, b: TweenState)
  {
    && a.startValue == b.startValue
    && a.targetValue == b.targetValue
    && a.duration == b.duration
    && a.delay == b.delay
    && a.easing == b.easing
    && a.completionBound == b.completionBound
  }

  /**
   * Update divides Time by Duration only when 0 <= Time <= Duration; with a
   * zero Duration that is the single point Time == 0, where the division is
   * 0/0. Every other call is defined.
   */
  predicate Defined(s: TweenState, dt: real)
  {
    s.duration != 0.0 || s.time + dt != 0.0
  }

  /** StartValue + Easing(alpha) * (TargetValue - StartValue). */
  function Interpolate(s: TweenState, alpha: real): real
  {
    s.startValue + s.easing(alpha) * (s.targetValue - s.startValue)
  }

  /** The interpolation reaches the target exactly when the easing gives 1, and the start when it gives 0. */
  lemma InterpolateEnds(s: TweenState, alpha: real)
    ensures s.easing(alpha) == 1.0 ==> Interpolate(s, alpha) == s.targetValue
    ensures s.easing(alpha) == 0.0 ==> Interpolate(s, alpha) == s.startValue
  {
  }

  /**
   * FTween::Update: advance the clock; in the delay phase do nothing else;
   * past the end run the completion delegate, snap to the target, report it
   * and stop; otherwise report the eased value and continue.
   */
  function Update(s: TweenState, dt: real): (r: (TweenState, TimerReturn))
    requires Defined(s, dt)
    ensures SameSetup(s, r.0) && r.0.time == s.time + dt
    ensures r.1 == Stop <==> s.time + dt >= 0.0 && s.time + dt > s.duration
    ensures r.0.updates == s.updates + (if s.time + dt < 0.0 then [] else [r.0.currentValue])
    ensures r.0.completions == s.completions + (if r.1 == Stop && s.completionBound then 1 else 0)
    ensures s.time + dt < 0.0 ==> r.0.currentValue == s.currentValue
    ensures r.1 == Stop ==> r.0.currentValue == s.targetValue
    ensures 0.0 <= s.time + dt <= s.duration ==>
              r.0.currentValue == Interpolate(s, (s.time + dt) / s.duration)
  {
    var time := s.time + dt;
    if time < 0.0 then
      (s.(time := time), Continue)
    else if time > s.duration then
      var completions := if s.completionBound then s.completions + 1 else s.completions;
      (s.(time := time, completions := completions, currentValue := s.targetValue,
          updates := s.updates + [s.targetValue]), Stop)
    else
      var value := Interpolate(s, time / s.duration);
      (s.(time := time, currentValue := value, updates := s.updates + [value]), Continue)
  }

  /**
   * The step a widget tween registers as its active timer: a dead widget
   * stops the timer without touching the tween; otherwise it is one Update.
   */
  function WidgetStep(s: TweenState, widgetValid: bool, dt: real): (r: (TweenState, TimerReturn))
    requires widgetValid ==> Defined(s, dt)
    ensures r.1 == Stop <==> !widgetValid || Update(s, dt).1 == Stop
    ensures !widgetValid ==> r.0 == s
    ensures widgetValid ==> r.0 == Update(s, dt).0
  {
    if !widgetValid then (s, Stop) else Update(s, dt)
  }

  /**
   * The step an object tween registers with the world subsystem: a dead
   * object drops the step without touching the tween; otherwise it is one
   * Update, and the step is kept exactly when Update continues.
   */
  function ObjectStep(s: TweenState, objectValid: bool, dt: real): (r: (TweenState, bool))
    requires objectValid ==> Defined(s, dt)
    ensures r.1 <==> objectValid && Update(s, dt).1 == Continue
    ensures !objectValid ==> r.0 == s
    ensures objectValid ==> r.0 == Update(s, dt).0
  {
    if !objectValid then (s, false)
    else
      var (next, outcome) := Update(s, dt);
      (next, outcome != Stop)
  }

  // ---------------------------------------------------------------------
  // Runs of Update calls

  function Sum(dts: seq<real>): real
  {
    if dts == [] then 0.0 else dts[0] + Sum(dts[1..])
  }

  predicate NonNegative(dts: seq<real>)
  {
    forall k :: 0 <= k < |dts| ==> dts[k] >= 0.0
  }

  predicate AllContinue(outcomes: seq<TimerReturn>)
  {
    forall k :: 0 <= k < |outcomes| ==> outcomes[k] == Continue
  }

  /** Update applied to each delta in turn: the final state and each call's result. */
  function Run(s: TweenState, dts: seq<real>): (r: (TweenState, seq<TimerReturn>))
    requires s.duration != 0.0
    ensures |r.1| == |dts| && SameSetup(s, r.0)
    decreases |dts|
  {
    if dts == [] then (s, [])
    else
      var (next, outcome) := Update(s, dts[0]);
      var (last, outcomes) := Run(next, dts[1..]);
      (last, [outcome] + outcomes)
  }

  /** One step of a run, unfolded. */
  lemma RunStep(s: TweenState, dts: seq<real>)
    requires s.duration != 0.0 && dts != []
    ensures Run(s, dts).0 == Run(Update(s, dts[0]).0, dts[1..]).0
    ensures Run(s, dts).1 == [Update(s, dts[0]).1] + Run(Update(s, dts[0]).0, dts[1..]).1
  {
  }

  lemma {:induction false} SumNonNegative(dts: seq<real>)
    requires NonNegative(dts)
    ensures Sum(dts) >= 0.0
  {
    if dts != [] {
      SumNonNegative(dts[1..]);
    }
  }

  /** The clock of a run advances by the sum of its deltas. */
  lemma {:induction false} RunClock(s: TweenState, dts: seq<real>)
    requires s.duration != 0.0
    ensures Run(s, dts).0.time == s.time + Sum(dts)
    decreases |dts|
  {
    if dts != [] {
      RunClock(Update(s, dts[0]).0, dts[1..]);
    }
  }

  /** A run over `a + b` is the run over `a` followed by the run over `b`. */
  lemma {:induction false} RunSplit(s: TweenState, a: seq<real>, b: seq<real>)
    requires s.duration != 0.0
    ensures Run(s, a + b).0 == Run(Run(s, a).0, b).0
    ensures Run(s, a + b).1 == Run(s, a).1 + Run(Run(s, a).0, b).1
    decreases |a|
  {
    if a == [] {
      assert a + b == b;
    } else {
      assert (a + b)[1..] == a[1..] + b;
      RunSplit(Update(s, a[0]).0, a[1..], b);
    }
  }

  /**
   * A run only appends to the recorded UpdateFunction calls, and while every
   * call continues UponCompletion never runs.
   */
  lemma {:induction false} RunOnlyAppends(s: TweenState, dts: seq<real>)
    requires s.duration != 0.0
    ensures s.updates <= Run(s, dts).0.updates
    ensures s.completions <= Run(s, dts).0.completions
    ensures AllContinue(Run(s, dts).1) ==> Run(s, dts).0.completions == s.completions
    decreases |dts|
  {
    if dts != [] {
      var next := Update(s, dts[0]).0;
      RunOnlyAppends(next, dts[1..]);
      assert Run(s, dts).1 == [Update(s, dts[0]).1] + Run(next, dts[1..]).1;
      if AllContinue(Run(s, dts).1) {
        assert Run(s, dts).1[0] == Continue;
        assert forall k :: 0 <= k < |dts| - 1 ==> Run(next, dts[1..]).1[k] == Run(s, dts).1[k + 1];
      }
    }
  }

  /**
   * A run that ends at its first Stop: the completion delegate has run
   * exactly once (when bound), on the last call and not before, and the last
   * value passed to UpdateFunction, like the final CurrentValue, is the target.
   */
  lemma FirstStopCompletesOnce(s: TweenState, dts: seq<real>)
    requires s.duration != 0.0 && |dts| > 0
    requires AllContinue(Run(s, dts).1[..|dts| - 1]) && Run(s, dts).1[|dts| - 1] == Stop
    ensures Run(s, dts[..|dts| - 1]).0.completions == s.completions
    ensures Run(s, dts).0.completions == s.completions + (if s.completionBound then 1 else 0)
    ensures Run(s, dts).0.currentValue == s.targetValue
    ensures |Run(s, dts).0.updates| > |s.updates|
    ensures Run(s, dts).0.updates[|Run(s, dts).0.updates| - 1] == s.targetValue
  {
    var init, last := dts[..|dts| - 1], dts[|dts| - 1];
    assert dts == init + [last];
    RunSplit(s, init, [last]);
    var before := Run(s, init).0;
    assert Run(s, dts).1[..|dts| - 1] == Run(s, init).1;
    RunOnlyAppends(s, init);
    assert Run(before, [last]).1 == [Update(before, last).1];
    assert Run(before, [last]).0 == Update(before, last).0;
  }

  /**
   * With a positive Duration and nonnegative deltas, a tween that has not yet
   * passed its end keeps going through a whole run exactly when the run's
   * total time stays within Duration (Time == Duration still continues).
   */
  lemma {:induction false} ContinuesWhileWithinDuration(s: TweenState, dts: seq<real>)
    requires s.duration > 0.0 && s.time <= s.duration && NonNegative(dts)
    ensures AllContinue(Run(s, dts).1) <==> s.time + Sum(dts) <= s.duration
    decreases |dts|
  {
    if dts != [] {
      var (next, outcome) := Update(s, dts[0]);
      var rest := dts[1..];
      assert NonNegative(rest) by {
        forall k | 0 <= k < |rest| ensures rest[k] >= 0.0 { assert rest[k] == dts[k + 1]; }
      }
      SumNonNegative(rest);
      var outcomes := Run(s, dts).1;
      assert outcomes == [outcome] + Run(next, rest).1;
      if outcome == Continue {
        ContinuesWhileWithinDuration(next, rest);
        if AllContinue(Run(next, rest).1) {
          assert AllContinue(outcomes) by {
            forall k | 0 <= k < |outcomes| ensures outcomes[k] == Continue {
              if k > 0 { assert outcomes[k] == Run(next, rest).1[k - 1]; }
            }
          }
        } else {
          var k :| 0 <= k < |Run(next, rest).1| && Run(next, rest).1[k] != Continue;
          assert outcomes[k + 1] != Continue;
        }
      } else {
        assert outcomes[0] != Continue;
      }
    }
  }

  /**
   * While the clock stays negative (the delay phase), a run with nonnegative
   * deltas never calls UpdateFunction or UponCompletion, keeps CurrentValue
   * and always continues.
   */
  lemma {:induction false} DelayIsSilent(s: TweenState, dts: seq<real>)
    requires s.duration != 0.0 && NonNegative(dts) && s.time + Sum(dts) < 0.0
    ensures AllContinue(Run(s, dts).1)
    ensures Run(s, dts).0.updates == s.updates
    ensures Run(s, dts).0.currentValue == s.currentValue
    ensures Run(s, dts).0.completions == s.completions
    decreases |dts|
  {
    if dts != [] {
      var (next, outcome) := Update(s, dts[0]);
      var rest := dts[1..];
      assert NonNegative(rest) by {
        forall k | 0 <= k < |rest| ensures rest[k] >= 0.0 { assert rest[k] == dts[k + 1]; }
      }
      SumNonNegative(rest);
      DelayIsSilent(next, rest);
      var outcomes := Run(s, dts).1;
      assert outcomes == [outcome] + Run(next, rest).1;
      assert AllContinue(outcomes) by {
        forall k | 0 <= k < |outcomes| ensures outcomes[k] == Continue {
          if k > 0 { assert outcomes[k] == Run(next, rest).1[k - 1]; }
        }
      }
    }
  }

  lemma DivSelf(x: real)
    requires x > 0.0
    ensures x / x == 1.0
  {
    var q := x / x;
    assert q * x == x;
    assert (q - 1.0) * x == 0.0;
  }

  /**
   * Two half-duration frames from Time 0 end where one full-duration frame
   * does: both continue (Time == Duration is not past the end) with the value
   * eased at progress 1.
   */
  lemma HalvedFramesAgree(s: TweenState)
    requires s.time == 0.0 && s.duration > 0.0
    ensures var half := s.duration / 2.0;
            && Run(s, [half, half]).1 == [Continue, Continue]
            && Run(s, [s.duration]).1 == [Continue]
            && Run(s, [half, half]).0.time == Run(s, [s.duration]).0.time == s.duration
            && Run(s, [half, half]).0.currentValue == Run(s, [s.duration]).0.currentValue
            && Run(s, [s.duration]).0.currentValue == Interpolate(s, 1.0)
            && Run(s, [half, half]).0.completions == Run(s, [s.duration]).0.completions == s.completions
  {
    var half := s.duration / 2.0;
    var mid := Update(s, half).0;
    assert [half, half][1..] == [half];
    assert [half][1..] == [s.duration][1..] == [];
    RunStep(s, [half, half]);
    RunStep(mid, [half]);
    RunStep(s, [s.duration]);
    assert mid.time + half == s.time + s.duration == s.duration;
    DivSelf(s.duration);
    assert Update(mid, half).1 == Continue && Update(s, s.duration).1 == Continue;
    assert (mid.time + half) / mid.duration == 1.0;
    assert Interpolate(mid, 1.0) == Interpolate(s, 1.0);
    assert Update(s, s.duration).0.currentValue == Interpolate(s, 1.0);
  }

  /**
   * From 0 to 10 over 2 seconds with linear easing and no delay, frames of
   * 0.5, 0.5, 0.5, 0.5 and 0.1 report 2.5, 5, 7.5, 10 and 10 again: the frame
   * landing exactly on the duration still interpolates and continues, and
   * only the next one completes.
   */
  lemma LinearTwoSecondExample()
    ensures var s := TweenState(0.0, 10.0, 0.0, 0.0, 2.0, 0.0, Easing.LinearCurve, true, [], 0);
            var r := Run(s, [0.5, 0.5, 0.5, 0.5, 0.1]);
            && r.1 == [Continue, Continue, Continue, Continue, Stop]
            && r.0.updates == [2.5, 5.0, 7.5, 10.0, 10.0]
            && r.0.completions == 1
  {
    var s := TweenState(0.0, 10.0, 0.0, 0.0, 2.0, 0.0, Easing.LinearCurve, true, [], 0);
    var s1 := Update(s, 0.5).0;
    var s2 := Update(s1, 0.5).0;
    var s3 := Update(s2, 0.5).0;
    var s4 := Update(s3, 0.5).0;
    var s5 := Update(s4, 0.1).0;
    assert s1.updates == [2.5];
    assert s2.updates == [2.5, 5.0];
    assert s3.updates == [2.5, 5.0, 7.5];
    assert s4.updates == [2.5, 5.0, 7.5, 10.0] && s4.time == 2.0;
    assert s5.updates == [2.5, 5.0, 7.5, 10.0, 10.0] && s5.completions == 1;
    var dts := [0.5, 0.5, 0.5, 0.5, 0.1];
    assert dts[1..] == [0.5, 0.5, 0.5, 0.1];
    assert dts[1..][1..] == [0.5, 0.5, 0.1];
    assert dts[1..][1..][1..] == [0.5, 0.1];
    assert dts[1..][1..][1..][1..] == [0.1];
    assert [0.1][1..] == [];
    RunStep(s, dts);
    RunStep(s1, dts[1..]);
    RunStep(s2, dts[1..][1..]);
    RunStep(s3, dts[1..][1..][1..]);
    RunStep(s4, [0.1]);
  }
}
