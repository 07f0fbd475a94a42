# BasicTween, modelled in Dafny

BasicTween is an Unreal Engine plugin that animates one value from a start
to a target over a duration, shaped by an easing curve. This project models
its three working parts over `real`:

- **the easing catalogue** (`FEase` and the `Ease` enum, module `Easing`):
  - the dispatcher from the 31 curve names to a curve descriptor;
  - the polynomial curves, modelled exactly: linear, the power family, the
    four-arc bounce and its wrappers, and the back curves;
  - the clamps of the elastic curves.
- **the tween** (`FTween<T>` with T = float):
  - module `TweenUpdate` holds its fields as a value, `Update`, and the
    two step lambdas that `Start` registers;
  - module `Tween` holds the class itself, with `Start`, `Stop`, `Update`,
    `From`, `To` and `OnComplete`.
- **the per-world scheduler** (`UTweenWorldSubSystem`, module `TweenWorld`):
  - `AddDelegate` appends a step;
  - `Tick` walks the steps from the last index down to 0, runs each one, and
    removes the ones that return false in place.

Module `WidgetTimers` stands in for the one part of a Slate widget that a
widget tween touches: its list of active timers, where registering appends
and unregistering removes.

The step lambdas capture the tween by copy (`[&, *this]`), so the animation
that a driver advances is a snapshot taken inside `Start`, after the clock has
been set to `-Delay`. The model keeps this split:
- the snapshots are `TweenState` values, stored in the widget's timers or in
  the subsystem's delegates;
- the caller keeps the `FTween` object, and only that object's own methods
  change it.

In particular, `Stop` on an object tween sets `Time = Duration` on the
caller's object. It does not touch the running copy, which goes on until it
completes or its object dies (`Tween.ObjectStopMissesRunningCopy`).

`UpdateFunction` and `UponCompletion` are never called. Their effects are
recorded in the state instead:
- `updates` lists the values passed to `UpdateFunction`, in call order;
- `completions` counts the times `UponCompletion` ran;
- `completionBound` says whether a completion delegate is bound.

Liveness is a flag:
- `TWeakObjectPtr::IsValid` is the `valid` field of a `UObject`;
- the widget tween holds its widget through a `TSharedPtr`, so its
  `IsValid` is the widget being non-null;
- `ActiveTimerHandle.IsValid()` is taken to mean that the widget still holds
  a timer under that handle.

Four behaviours of the code are easy to overlook. The model follows the code in each:
- **A frame that lands exactly on `Duration` does not complete.** A frame
  that steps past `Duration` completes on that frame, but the completion
  test is the strict `Time > Duration` (Tween.h:99). So a frame that lands exactly on `Duration`
  still takes the interpolation branch (Tween.h:108-111) at progress 1, and
  it continues; `UponCompletion` does not run. That frame reports the value
  eased at progress 1, and the next frame completes and reports `TargetValue`
  (Tween.h:101-105). The two reports are the same value only when the curve
  ends at 1: with QuadInOut the landing frame reports 2 StartValue -
  TargetValue, and with BounceIn it reports StartValue.
  - 0 to 10 over 2 s with frames 0.5, 0.5, 0.5, 0.5 and 0.1 reports 2.5, 5,
    7.5, 10 and 10, and completes only on the fifth frame
    (`TweenUpdate.LinearTwoSecondExample`).
  - Two half-duration frames, or one full-duration frame, both end at the
    final value without completing (`TweenUpdate.HalvedFramesAgree`).
- **`Stop` on an object tween does not reach the running copy.** It sets
  `Time = Duration` on the caller's object (Tween.h:84-87). The step registered
  at Tween.h:63-73 captured its own copy, which runs on
  (`Tween.ObjectStopMissesRunningCopy`).
- **`Stepped` has no case in `GetEaseFunction`.** It takes the default branch
  (Ease.h:82), which is Linear.
- **Of the modelled curves, three families do not run from 0 to 1.** These
  are the in-out powers, BounceIn and BounceInOut; see "## Findings". The
  dispatcher's evaluation, `Easing.Value`, keeps these curves as written. The
  corrected curves sit beside them, with the properties they were evidently
  meant to have. Five unmodelled curves miss an endpoint as well, and their
  end values need no transcendental function:
  - CircularOut, `Sqrt(1 - Alpha^2)` (Ease.h:238), runs from 1 to 0.
  - CircularInOut gives 0.5 - 1 = -0.5 at alpha = 0 (Ease.h:249).
  - ExponentialIn gives 2^-10 at alpha = 0 (Ease.h:206).
  - ExponentialOut gives 1 - 2^-10 at alpha = 1 (Ease.h:211).
  - ExponentialInOut gives 2^-11 at 0 and 1 - 2^-11 at 1 (Ease.h:219, Ease.h:222).

## Model

All paths are under `Source/BasicTween/`.

| member | source | states |
|---|---|---|
| `Easing.GetEaseFunction` | Source/BasicTween/Public/Ease.h:47-84 | the curve is Linear exactly for `Linear` and `Stepped` (no case, so the default); power curves get integer exponents 2 to 5; the elastic family is reached exactly from the three elastic names, each with its own shape (In, Out, InOut), amplitude 1 and period 0.3 (In, Out) or 0.45 (InOut); back curves get amount 1.5. Which name reaches which curve, for every alpha, is pinned by `PolynomialInEases`, `PolynomialOutEases`, `InOutPowerEases`, `BounceEases` and `BackEases`, and the family and shape of the nine transcendental names by `SineDescriptors`, `ExponentialDescriptors` and `CircularDescriptors` |
| `Easing.Value` | Source/BasicTween/Public/Ease.h:86-328 | calls the lambda a factory returned; the model has no value exactly for the sine, exponential and circular curves and for the interior 0 < alpha < 1 of the elastic curves |
| `Easing.LinearCurve` | Source/BasicTween/Public/Ease.h:86-89 | the identity (no contract of its own); the dispatcher's Linear and Stepped reach it (`PolynomialInEases`) |
| `Easing.PowIn` | Source/BasicTween/Public/Ease.h:91-94 | alpha^p (no contract of its own); its properties are `PowInEndpoints` and `PowInAndOutBounded`, and `PolynomialInEases` writes it out through the dispatcher |
| `Easing.PowOut` | Source/BasicTween/Public/Ease.h:96-99 | 1 - (1 - alpha)^p (no contract of its own); its properties are `PowOutEndpoints` and `PowInAndOutBounded`, and `PolynomialOutEases` writes it out through the dispatcher |
| `Easing.PowInOut` | Source/BasicTween/Public/Ease.h:101-113 | the in-out power curve as written, with `Value` doubled twice (no contract of its own); its properties are `PowInOutIsIntendedAtDoubleSpeed`, `PowInOutAsWrittenEndpoints` and `InOutPowersMissTheTarget`, and `InOutPowerEases` ties it to the dispatcher |
| `Easing.Bounce` | Source/BasicTween/Public/Ease.h:258-279 | the four arcs (no contract of its own); its properties are `BounceEnds`, `BounceContinuous` and `BounceBounded` |
| `Easing.BounceInCurve` | Source/BasicTween/Public/Ease.h:282-285 | Bounce(1 - alpha) as written (no contract of its own); see `BounceInAsWrittenEndpoints` and `BounceEases` |
| `Easing.BounceOutCurve` | Source/BasicTween/Public/Ease.h:287-290 | Bounce(alpha) (no contract of its own); see `EndpointsHold`, `BounceBounded` and `BounceEases` |
| `Easing.BounceInOutCurve` | Source/BasicTween/Public/Ease.h:292-295 | the bounce in-out curve as written (no contract of its own); see `BounceInOutAsWrittenEndpoints` and `BounceEases` |
| `Easing.BackInCurve` | Source/BasicTween/Public/Ease.h:297-303 | the back-in cubic (no contract of its own); see `BackEndpoints` and `BackEases` |
| `Easing.BackOutCurve` | Source/BasicTween/Public/Ease.h:305-312 | the back-out cubic (no contract of its own); see `BackEndpoints` and `BackEases` |
| `Easing.BackInOutCurve` | Source/BasicTween/Public/Ease.h:314-328 | the back in-out curve with the overshoot scaled by 1.525 (no contract of its own); see `BackEndpoints`, `BackInOutIsHalves` and `BackEases` |
| `Easing.InOutPowerEases` | Source/BasicTween/Public/Ease.h:54-63 | through the dispatcher, for every alpha, QuadInOut to QuinticInOut are the in-out power curve as written with exponents 2, 3, 4 and 5 |
| `Easing.BounceEases` | Source/BasicTween/Public/Ease.h:73-75 | through the dispatcher, for every alpha, BounceIn, BounceOut and BounceInOut are the three bounce wrappers, each the one of its own name |
| `Easing.BackEases` | Source/BasicTween/Public/Ease.h:79-81 | through the dispatcher, for every alpha, BackIn, BackOut and BackInOut are the three back curves, each the one of its own name, with overshoot 1.5 |
| `Easing.PolynomialInEases` | Source/BasicTween/Public/Ease.h:47-94 | through the dispatcher, Linear and Stepped are the identity, and QuadIn to QuinticIn are alpha^2 to alpha^5 |
| `Easing.PolynomialOutEases` | Source/BasicTween/Public/Ease.h:47-99 | through the dispatcher, QuadOut to QuinticOut are 1 - (1 - alpha)^p for p = 2 to 5 |
| `Easing.EndpointsHold` | Source/BasicTween/Public/Ease.h:47-84 | the 0-to-1 curves reached through the dispatcher are exactly 0 at alpha = 0 and 1 at alpha = 1: linear, every In and Out power, BounceOut, the elastic clamps and the three back curves |
| `Easing.PowInEndpoints` | Source/BasicTween/Public/Ease.h:91-94 | for p >= 1, PowIn(p) maps 0 to 0 and 1 to 1 |
| `Easing.PowOutEndpoints` | Source/BasicTween/Public/Ease.h:96-99 | for p >= 1, PowOut(p) maps 0 to 0 and 1 to 1 |
| `Easing.PowInAndOutBounded` | Source/BasicTween/Public/Ease.h:91-99 | on [0, 1], PowIn and PowOut stay within [0, 1] |
| `Easing.PowInOutIsIntendedAtDoubleSpeed` | Source/BasicTween/Public/Ease.h:103-112 | the curve as written is the once-doubled curve run at double speed: PowInOut(p, alpha) equals the corrected curve at 2 alpha |
| `Easing.PowInOutAsWrittenEndpoints` | Source/BasicTween/Public/Ease.h:101-113 | for p >= 1, PowInOut(p) as written is 0 at alpha = 0, already 1 at 1/2, and 1 - 2^p / 2 at 1, which is negative for every p >= 2 |
| `Easing.InOutPowersMissTheTarget` | Source/BasicTween/Public/Ease.h:47-113 | through the dispatcher, QuadInOut to QuinticInOut start at 0 and end at -1, -3, -7 and -15 |
| `Easing.PowInOutIntendedEndpoints` | Source/BasicTween/Public/Ease.h:101-113 | the corrected PowInOut runs from 0, through 1/2 at the midpoint, to 1; its first branch also reaches 1/2 at the midpoint, so the two branches meet there |
| `Easing.PowInOutIntendedBounded` | Source/BasicTween/Public/Ease.h:101-113 | the corrected PowInOut maps [0, 1] into [0, 1] |
| `Easing.BounceEnds` | Source/BasicTween/Public/Ease.h:258-279 | Bounce(0) = 0 and Bounce(1) = 1 |
| `Easing.BounceContinuous` | Source/BasicTween/Public/Ease.h:258-279 | at each breakpoint 1/2.75, 2/2.75 and 2.5/2.75, the arc on either side equals 1, so Bounce is continuous, and Bounce itself gives 1 there |
| `Easing.BounceBounded` | Source/BasicTween/Public/Ease.h:258-279 | Bounce maps [0, 1] into [0, 1] |
| `Easing.BounceInAsWrittenEndpoints` | Source/BasicTween/Public/Ease.h:282-285 | as written, BounceIn = Bounce(1 - alpha) gives 1 at 0 and 0 at 1 |
| `Easing.BounceInMissesTheTarget` | Source/BasicTween/Public/Ease.h:282-285 | through the dispatcher, BounceIn runs from 1 to 0 |
| `Easing.BounceInIntendedEndpoints` | Source/BasicTween/Public/Ease.h:282-285 | the corrected BounceIn, 1 - Bounce(1 - alpha), runs from 0 to 1 |
| `Easing.BounceInIntendedBounded` | Source/BasicTween/Public/Ease.h:282-285 | the corrected BounceIn maps [0, 1] into [0, 1] |
| `Easing.BounceInOutAsWrittenEndpoints` | Source/BasicTween/Public/Ease.h:292-295 | as written, BounceInOut gives 1/2 at both alpha = 0 and alpha = 1 |
| `Easing.BounceInOutMissesTheTarget` | Source/BasicTween/Public/Ease.h:292-295 | through the dispatcher, BounceInOut runs from 1/2 to 1/2 |
| `Easing.BounceInOutIntendedEndpoints` | Source/BasicTween/Public/Ease.h:292-295 | the corrected BounceInOut runs from 0 to 1 |
| `Easing.BounceInOutIntendedMidpoint` | Source/BasicTween/Public/Ease.h:292-295 | the first half (BounceIn at double speed) and the second half (BounceOut at double speed) of the corrected BounceInOut both give 1/2 at the midpoint, and so does the curve |
| `Easing.BounceInOutIntendedBounded` | Source/BasicTween/Public/Ease.h:292-295 | the corrected BounceInOut maps [0, 1] into [0, 1] |
| `Easing.ElasticBoundary` | Source/BasicTween/Public/Ease.h:139-151 | an elastic curve has a modelled value exactly when alpha <= 0 or alpha >= 1; the value is 0 for alpha <= 0 and 1 for alpha >= 1 |
| `Easing.ElasticClamps` | Source/BasicTween/Public/Ease.h:139-190 | ElasticIn, ElasticOut and ElasticInOut through the dispatcher are exactly 0 for alpha <= 0 and exactly 1 for alpha >= 1; in between the model gives no value |
| `Easing.SineDescriptors` | Source/BasicTween/Public/Ease.h:64-66 | SineIn, SineOut and SineInOut reach the sine family with the shapes In, Out and InOut |
| `Easing.ExponentialDescriptors` | Source/BasicTween/Public/Ease.h:67-69 | ExponentialIn, ExponentialOut and ExponentialInOut reach the exponential family with the shapes In, Out and InOut |
| `Easing.CircularDescriptors` | Source/BasicTween/Public/Ease.h:70-72 | CircularIn, CircularOut and CircularInOut reach the circular family with the shapes In, Out and InOut |
| `Easing.TranscendentalEasesUnmodelled` | Source/BasicTween/Public/Ease.h:64-72 | the sine, exponential and circular curves reached through the dispatcher have no value in the model |
| `Easing.BackEndpoints` | Source/BasicTween/Public/Ease.h:297-328 | for any amount, BackIn, BackOut and BackInOut map 0 to 0 and 1 to 1 |
| `Easing.BackInOutIsHalves` | Source/BasicTween/Public/Ease.h:314-328 | for every alpha, BackInOut is its first half (BackIn with the amount scaled by 1.525, at double speed, squeezed into [0, 1/2]) before the midpoint and its second half (BackOut likewise, squeezed into [1/2, 1]) from it on; both halves give 1/2 at the midpoint |
| `TweenUpdate.Interpolate` | Source/BasicTween/Public/Tween.h:108 | Start + Easing(alpha) * (Target - Start) (no contract of its own); see `InterpolateEnds` and `Update` |
| `TweenUpdate.InterpolateEnds` | Source/BasicTween/Public/Tween.h:108 | the interpolated value is the target when the easing gives 1, and the start when it gives 0 |
| `TweenUpdate.Update` | Source/BasicTween/Public/Tween.h:90-112 | the clock advances by the delta first and the configuration is untouched; Stop exactly when Time >= 0 and Time > Duration; below 0 nothing is reported and CurrentValue is kept; otherwise exactly one value is reported: the target on Stop (with one completion when bound), or the eased interpolation at Time / Duration, and Time == Duration still interpolates |
| `TweenUpdate.WidgetStep` | Source/BasicTween/Public/Tween.h:44-52 | with no widget, the step stops and leaves the tween untouched; otherwise it is one Update; it stops exactly when the widget is gone or Update stops |
| `TweenUpdate.ObjectStep` | Source/BasicTween/Public/Tween.h:63-71 | the step is kept exactly when the object is valid and Update continues; a dead object leaves the tween untouched; otherwise the tween is advanced by Update |
| `TweenUpdate.Run` | Source/BasicTween/Public/Tween.h:90-112 | a run of Updates gives one result per delta and never changes the configuration |
| `TweenUpdate.RunClock` | Source/BasicTween/Public/Tween.h:92 | after a run, the clock has advanced by the sum of the deltas |
| `TweenUpdate.RunSplit` | Source/BasicTween/Public/Tween.h:90-112 | a run over two lists of deltas joined equals the run over the first followed by the run over the second |
| `TweenUpdate.RunOnlyAppends` | Source/BasicTween/Public/Tween.h:90-112 | a run only appends to the reported values and never lowers the completion count; while every call continues, no completion happens |
| `TweenUpdate.FirstStopCompletesOnce` | Source/BasicTween/Public/Tween.h:92-111 | in a run that ends at its first Stop, the completion delegate runs exactly once when bound, on the last call and not before, and the last reported value and the final CurrentValue are the target |
| `TweenUpdate.ContinuesWhileWithinDuration` | Source/BasicTween/Public/Tween.h:92-111 | with Duration > 0, nonnegative deltas and a clock not yet past the end, every call of a run continues exactly when the run's total time stays within Duration |
| `TweenUpdate.DelayIsSilent` | Source/BasicTween/Public/Tween.h:92-97 | while the clock stays negative, a run with nonnegative deltas reports nothing, keeps CurrentValue, completes nothing, and always continues |
| `TweenUpdate.HalvedFramesAgree` | Source/BasicTween/Public/Tween.h:92-111 | from Time 0, two half-duration frames and one full-duration frame both continue, and end at the same time (Duration) and the same value: the value interpolated at progress 1. Neither runs the completion delegate |
| `TweenUpdate.LinearTwoSecondExample` | Source/BasicTween/Public/Tween.h:90-112 | 0 to 10 over 2 s, linear, with frames 0.5, 0.5, 0.5, 0.5 and 0.1: Continue four times and then Stop; reported values 2.5, 5, 7.5, 10 and 10; one completion |
| `WidgetTimers.Widget.RegisterActiveTimer` | Source/BasicTween/Public/Tween.h:54-55 | registering appends one timer holding the tween copy, under a handle no current timer uses |
| `WidgetTimers.Widget.UnRegisterActiveTimer` | Source/BasicTween/Public/Tween.h:80-83 | unregistering drops the timers under the handle and keeps the others in order; afterwards the handle is no longer valid |
| `WidgetTimers.WithoutHandle` | Source/BasicTween/Public/Tween.h:82 | a timer survives unregistering exactly when it was there and its handle differs |
| `TweenWorld.Execute` | Source/BasicTween/Public/Tween.h:63-71 | executing a delegate keeps its target and configuration; it is kept exactly when its object is alive and Update continues; a dead object leaves the copy untouched, and a live one advances it by Update |
| `TweenWorld.Survivors` | Source/BasicTween/Private/TweenWorldSubSystem.cpp:7-14 | what remains after a Tick still holds only tweens with a nonzero Duration |
| `TweenWorld.ExecutionsAreBackward` | Source/BasicTween/Private/TweenWorldSubSystem.cpp:7-9 | Tick executes each delegate present at entry exactly once, all with the same delta, in descending index order |
| `TweenWorld.SurvivorsCount` | Source/BasicTween/Private/TweenWorldSubSystem.cpp:7-14 | the new length is the number of delegates that returned true, and is at most the old length, so an empty list stays empty |
| `TweenWorld.KeptAscending` | Source/BasicTween/Private/TweenWorldSubSystem.cpp:7-14 | the indices of the kept delegates are within the list and strictly ascending, so relative order is preserved |
| `TweenWorld.KeptExactly` | Source/BasicTween/Private/TweenWorldSubSystem.cpp:9-13 | an index is kept exactly when its delegate returned true |
| `TweenWorld.SurvivorsAtKept` | Source/BasicTween/Private/TweenWorldSubSystem.cpp:7-14 | for every j below the number of kept indices, the j-th kept index lies within the list, and the j-th delegate left after Tick is the delegate at that index, with the copy its step advanced |
| `TweenWorld.TweenWorldSubSystem.constructor` | Source/BasicTween/Public/TweenWorldSubSystem.h:20 | a new subsystem has no delegates |
| `TweenWorld.TweenWorldSubSystem.AddDelegate` | Source/BasicTween/Private/TweenWorldSubSystem.cpp:22-25 | appends the delegate at the end; existing entries and their order are unchanged |
| `TweenWorld.TweenWorldSubSystem.Tick` | Source/BasicTween/Private/TweenWorldSubSystem.cpp:3-15 | the backward execute-and-`RemoveAt` loop leaves exactly the survivors of the entry list, as the lemmas above characterise them, and records one execution per entry, last first; the loop invariant is that the entries below Index are still untouched and the entries from Index onward are already the survivors of that suffix |
| `Tween.FTween.State` | Source/BasicTween/Public/Tween.h:44 | the fields as the value that the `*this` capture copies (no contract of its own); `Start` registers exactly this value (also at Tween.h:63) |
| `Tween.FTween.ForWidget` | Source/BasicTween/Public/Tween.h:14-21 | a widget tween: no object, Time 0, no timer handle, no completion bound, nothing reported; the defaults are 1 s, Linear and no delay |
| `Tween.FTween.ForObject` | Source/BasicTween/Public/Tween.h:23-30 | an object tween: no widget, Time 0, no timer handle, no completion bound, nothing reported; the defaults are 1 s, Linear and no delay |
| `Tween.FTween.Start` | Source/BasicTween/Public/Tween.h:32-76 | Time becomes -Delay; with a zero Duration, CurrentValue snaps to TargetValue and nothing is registered; otherwise a snapshot of the tween is appended to the widget's timers (and the handle is kept), or else, for a valid object with a world, to the world's delegates |
| `Tween.FTween.Stop` | Source/BasicTween/Public/Tween.h:78-88 | with a widget whose timer is still registered, it unregisters that timer and changes nothing else; otherwise, for a valid object, it sets this object's Time to Duration and changes nothing else |
| `Tween.FTween.Update` | Source/BasicTween/Public/Tween.h:90-112 | the object's new fields and the result are exactly `TweenUpdate.Update` of its old fields |
| `Tween.FTween.OnComplete` | Source/BasicTween/Public/Tween.h:114-118 | only the binding of UponCompletion changes, and the same object is returned |
| `Tween.FTween.From` | Source/BasicTween/Public/Tween.h:120-124 | only StartValue changes, and the same object is returned |
| `Tween.FTween.To` | Source/BasicTween/Public/Tween.h:126-130 | only TargetValue changes, and the same object is returned |
| `Tween.ObjectStopMissesRunningCopy` | Source/BasicTween/Public/Tween.h:32-88 | after Start and Stop on an object tween, the caller's object reads Time = Duration, while the registered copy still reads -Delay |
| `Tween.WidgetStopUnregisters` | Source/BasicTween/Public/Tween.h:32-88 | after Start, a widget tween has one timer registered, and Stop removes it |
| `Tween.ZeroDurationSnaps` | Source/BasicTween/Public/Tween.h:32-39 | a zero-duration tween snaps to its target on Start and registers no timer |

## Left out

- Transcendental curves are left out: SineIn/Out/InOut, ExponentialIn/Out/InOut, CircularIn/Out/InOut (including the -1 offset outside the square root at Ease.h:249), and the sine and arcsine interiors of the elastic curves. The model only names them; `Easing.Value` gives no value for them, except the elastic clamps.
- Floating point is left out:
  - The model uses exact `real` arithmetic, not IEEE rounding.
  - `FMath::Pow` is modelled only with the integer exponents 2 to 5 that the dispatcher passes.
  - The float/double mixes are not modelled: the `double` delta narrowed to `float` at Tween.h:51 and Tween.h:70, the `double` literals 0.5 at Ease.h:294, 2.5 / 2.75 at Ease.h:271 and 1.525 in `Amount *= 1.525` at Ease.h:316, and the `float` Time accumulation.
- TweenUpdate.Update is stated only where it is defined. With a zero Duration and Time + delta == 0, the code divides 0 by 0, the float result is NaN, and `Defined` excludes that call. `Start` never registers a zero-duration tween, so every registered copy is defined; only a direct `Update` call on such a tween can reach it.
- `UpdateFunction` and `UponCompletion` are opaque callbacks, so they are not called. Their calls are recorded as the `updates` trace and the `completions` counter, and `OnComplete` takes only whether the delegate is bound.
- The engine's registration machinery is not part of this model. This covers Slate's `RegisterActiveTimer` and `UnRegisterActiveTimer` (the `WidgetTimers` stand-in), `GetWorld` and `GetSubsystem` (the `subsystem` field of `UObject`), and the smart-pointer validity checks (the flags described above).
- Tween.FTween.World reads a null `subsystem` as an object without a world, and then Start registers nothing. The model assumes every world has its tween subsystem. In the source, a world whose `GetSubsystem` returns null is dereferenced at Tween.h:73, which the model does not capture.
- The Slate driver that advances a widget's active timers is not part of this model. Widget timers hold their snapshot but are never advanced, and `TweenUpdate.WidgetStep` models what one call of the timer does.
- TweenUpdate.WidgetStep takes the widget's validity as a free flag. In the source, its dead-widget branch (Tween.h:46-49) cannot be reached: the copy taken at Tween.h:44 holds its own `TSharedPtr`, which was non-null at Tween.h:41 and stays non-null. The model states the branch without proving it unreachable.
- `Super::Tick` and `GetStatId` are engine tick and statistics glue and are not modelled.
- Re-entrant calls from a step into the scheduler during `Tick` are not modelled. A step in this model is a value and cannot call `AddDelegate`.
- TweenWorld.TweenWorldSubSystem.Tick reads each object's validity once, on entry. Objects are not destroyed while a Tick is running.
- The `InCurrentTime` parameter of the widget lambda and the `DelegateHandle` field are not modelled, because the source never reads them.
- T is `float` (here `real`) only. The source is generic, but its arithmetic is the same for every T it is used with here.
- Tween.FTween.ForWidget and Tween.FTween.ForObject leave StartValue, TargetValue and CurrentValue unconstrained. The source does not initialise them either.
- Tween.FTween.Start requires the world's subsystem to satisfy `Valid()`, i.e. to hold only tweens with a nonzero Duration. Its constructor, `AddDelegate` and `Tick` all preserve this invariant; the source states no such requirement.

## Findings

| source | as written | input that shows it | evidently intended | confidence | as-written member | corrected member |
|---|---|---|---|---|---|---|
| Source/BasicTween/Public/Ease.h:105-106 | `Value = 2 * Alpha` and then `Value *= 2`, so the curve runs on 4 alpha: it reaches 1 at alpha = 1/2 and ends at 1 - 2^p / 2 | QuadInOut at alpha = 1 gives -1 (CubicInOut -3, QuarticInOut -7, QuinticInOut -15) | `Value` doubled once: 0 at 0, 1/2 at the midpoint, 1 at 1, within [0, 1] | high; not executed | `Easing.InOutPowersMissTheTarget` | `Easing.PowInOutIntendedEndpoints` |
| Source/BasicTween/Public/Ease.h:284 | BounceIn is `Bounce(1 - Alpha)`, which runs backwards from 1 to 0 | BounceIn at alpha = 0 gives 1, and at alpha = 1 gives 0 | `1 - Bounce(1 - Alpha)`, the mirror image of BounceOut, from 0 to 1 | high; not executed | `Easing.BounceInMissesTheTarget` | `Easing.BounceInIntendedEndpoints` |
| Source/BasicTween/Public/Ease.h:294 | BounceInOut is `0.5 * Bounce(1 - Alpha)` before the midpoint and `0.5 * Bounce(Alpha)` after it | BounceInOut at alpha = 0 and at alpha = 1 both give 1/2 | BounceIn on 2 alpha for the first half and BounceOut on 2 alpha - 1 for the second: 0 at 0, 1/2 at the midpoint, 1 at 1 | high; not executed | `Easing.BounceInOutMissesTheTarget` | `Easing.BounceInOutIntendedEndpoints` |
