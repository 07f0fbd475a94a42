/**
 * FTween<float>: a tween object that its owner configures (From, To,
 * OnComplete), starts and may stop. Start moves the clock to -Delay and
 * hands a copy of the tween to a driver: the widget's active timers, or the
 * tween subsystem of the target object's world. From then on the copy is
 * what the driver advances; the object the caller keeps changes only when
 * its own methods are called.
 */
module Tween {
  import Easing
  import opened TweenUpdate
  import opened WidgetTimers
  import opened TweenWorld

  class FTween {
    const widget: Widget?
    const unrealObject: UObject?
    var activeTimerHandle: TimerHandle

    var startValue: real
    var targetValue: real
    var currentValue: real
    var time: real

    const duration: real
    const easing: real -> real
    const delay: real

    /** Whether UponCompletion is bound. */
    var completionBound: bool
    /** The values passed to UpdateFunction, in call order. */
    var updates: seq<real>
    /** How many times UponCompletion has run. */
    var completions: nat

    /** The fields as the value a step lambda captures. */
    function State(): TweenState
      reads this
    {
      TweenState(startValue, targetValue, currentValue, time, duration, delay, easing,
                 completionBound, updates, completions)
    }

    /** The tween subsystem of the target object's world; null without an object or a world. */
    function World(): TweenWorldSubSystem?
    {
      if unrealObject == null then null else unrealObject.subsystem
    }

    /**
     * A tween driven by a widget's active timers. StartValue, TargetValue and
     * CurrentValue are left as they come.
     */
    constructor ForWidget(widget: Widget?, duration: real := 1.0,
                          easing: real -> real := Easing.LinearCurve, delay: real := 0.0)
      ensures this.widget == widget && unrealObject == null
      ensures this.duration == duration && this.easing == easing && this.delay == delay
      ensures time == 0.0 && activeTimerHandle == NoHandle
      ensures !completionBound && updates == [] && completions == 0
    {
      this.widget := widget;
      unrealObject := null;
      this.duration := duration;
      this.easing := easing;
      this.delay := delay;
      time := 0.0;
      activeTimerHandle := NoHandle;
      completionBound := false;
      updates := [];
      completions := 0;
    }

    /** A tween driven by the tween subsystem of an object's world. */
    constructor ForObject(unrealObject: UObject?, duration: real := 1.0,
                          easing: real -> real := Easing.LinearCurve, delay: real := 0.0)
      ensures widget == null && this.unrealObject == unrealObject
      ensures this.duration == duration && this.easing == easing && this.delay == delay
      ensures time == 0.0 && activeTimerHandle == NoHandle
      ensures !completionBound && updates == [] && completions == 0
    {
      widget := null;
      this.unrealObject := unrealObject;
      this.duration := duration;
      this.easing := easing;
      this.delay := delay;
      time := 0.0;
      activeTimerHandle := NoHandle;
      completionBound := false;
      updates := [];
      completions := 0;
    }

    /**
     * Start: the clock goes to -Delay. A zero Duration snaps CurrentValue to
     * TargetValue and registers nothing. Otherwise a copy of the tween is
     * registered with the widget, or else, when the object is valid and has
     * a world, with that world's tween subsystem.
     */
    method Start()
      requires widget != null ==> widget.Valid()
      requires World() != null ==> World().Valid()
      modifies this, widget, World()
      ensures widget != null ==> widget.Valid()
      ensures World() != null ==> World().Valid()
      ensures time == -delay
      ensures currentValue == if duration == 0.0 then targetValue else old(currentValue)
      ensures startValue == old(startValue) && targetValue == old(targetValue)
      ensures completionBound == old(completionBound)
      ensures updates == old(updates) && completions == old(completions)
      ensures duration != 0.0 && widget != null ==>
                && activeTimerHandle.Handle?
                && widget.activeTimers == old(widget.activeTimers) + [ActiveTimer(activeTimerHandle.id, State())]
      ensures !(duration != 0.0 && widget != null) ==>
                activeTimerHandle == old(activeTimerHandle) && (widget != null ==> unchanged(widget))
      ensures duration != 0.0 && widget == null && unrealObject != null && unrealObject.valid && World() != null ==>
                World().delegates == old(World().delegates) + [TickDelegate(State(), unrealObject)]
      ensures World() != null ==> World().executions == old(World().executions)
      ensures !(duration != 0.0 && widget == null && unrealObject != null && unrealObject.valid) ==>
                World() != null ==> unchanged(World())
    {
      time := -delay;
      if duration == 0.0 {
        currentValue := targetValue;
        return;
      }
      if widget != null {
        var h := widget.RegisterActiveTimer(State());
        activeTimerHandle := Handle(h);
      } else if unrealObject != null && unrealObject.valid {
        var world := World();
        if world != null {
          world.AddDelegate(TickDelegate(State(), unrealObject));
        }
      }
    }

    /**
     * Stop: with a widget whose timer is still registered, unregister it;
     * otherwise, when the object is valid, move this object's clock to
     * Duration. The copy a driver runs is not this object, so the store on
     * the object path does not reach it.
     */
    method Stop()
      requires widget != null ==> widget.Valid()
      modifies this, widget
      ensures widget != null ==> widget.Valid()
      ensures activeTimerHandle == old(activeTimerHandle)
      ensures widget != null && activeTimerHandle.Handle? && old(widget.HasTimer(activeTimerHandle.id)) ==>
                && widget.activeTimers == WithoutHandle(old(widget.activeTimers), activeTimerHandle.id)
                && !widget.HasTimer(activeTimerHandle.id)
                && State() == old(State())
      ensures !(widget != null && activeTimerHandle.Handle? && old(widget.HasTimer(activeTimerHandle.id))) ==>
                && (widget != null ==> unchanged(widget))
                && State() == if unrealObject != null && unrealObject.valid then old(State()).(time := duration) else old(State())
    {
      if widget != null && activeTimerHandle.Handle? && widget.HasTimer(activeTimerHandle.id) {
        widget.UnRegisterActiveTimer(activeTimerHandle.id);
      } else if unrealObject != null && unrealObject.valid {
        time := duration;
      }
    }

    /** Update on this object, as TweenUpdate.Update describes it. */
    method Update(dt: real) returns (r: TimerReturn)
      requires Defined(State(), dt)
      modifies this
      ensures (State(), r) == TweenUpdate.Update(old(State()), dt)
      ensures activeTimerHandle == old(activeTimerHandle)
    {
      time := time + dt;
      if time < 0.0 {
        return TimerReturn.Continue;
      }
      if time > duration {
        if completionBound {
          completions := completions + 1;
        }
        currentValue := targetValue;
        updates := updates + [targetValue];
        return TimerReturn.Stop;
      }
      currentValue := startValue + easing(time / duration) * (targetValue - startValue);
      updates := updates + [currentValue];
      assert currentValue == Interpolate(old(State()), time / duration);
      return TimerReturn.Continue;
    }

    /** OnComplete: bind (or unbind) UponCompletion; nothing else changes. */
    method OnComplete(bound: bool) returns (self: FTween)
      modifies this
      ensures self == this
      ensures State() == old(State()).(completionBound := bound)
      ensures activeTimerHandle == old(activeTimerHandle)
    {
      completionBound := bound;
      self := this;
    }

    /** From: set StartValue; nothing else changes. */
    method From(value: real) returns (self: FTween)
      modifies this
      ensures self == this
      ensures State() == old(State()).(startValue := value)
      ensures activeTimerHandle == old(activeTimerHandle)
    {
      startValue := value;
      self := this;
    }

    /** To: set TargetValue; nothing else changes. */
    method To(value: real) returns (self: FTween)
      modifies this
      ensures self == this
      ensures State() == old(State()).(targetValue := value)
      ensures activeTimerHandle == old(activeTimerHandle)
    {
      targetValue := value;
      self := this;
    }
  }

  /**
   * Start then Stop on an object tween: the caller's object reads Time ==
   * Duration, while the copy the world subsystem runs still reads -Delay.
   */
  method ObjectStopMissesRunningCopy(duration: real, delay: real) returns (callerTime: real, runningTime: real)
    requires duration != 0.0
    ensures callerTime == duration && runningTime == -delay
  {
    var world := new TweenWorldSubSystem();
    var target := new UObject(true, world);
    var tween := new FTween.ForObject(target, duration, Easing.LinearCurve, delay);
    tween.Start();
    tween.Stop();
    callerTime := tween.time;
    runningTime := world.delegates[0].tween.time;
  }

  /** Start then Stop on a widget tween: one timer is registered, and Stop removes it. */
  method WidgetStopUnregisters(duration: real) returns (registered: nat, afterStop: nat)
    requires duration != 0.0
    ensures registered == 1 && afterStop == 0
  {
    var widget := new Widget();
    var tween := new FTween.ForWidget(widget, duration);
    tween.Start();
    registered := |widget.activeTimers|;
    assert widget.HasTimer(tween.activeTimerHandle.id) by {
      assert widget.activeTimers[0].handle == tween.activeTimerHandle.id;
    }
    tween.Stop();
    afterStop := |widget.activeTimers|;
  }

  /** A zero-duration tween snaps to its target on Start and registers no timer. */
  method ZeroDurationSnaps(target: real) returns (value: real, timers: nat)
    ensures value == target && timers == 0
  {
    var widget := new Widget();
    var tween := new FTween.ForWidget(widget, 0.0);
    var self := tween.To(target);
    tween.Start();
    value := tween.currentValue;
    timers := |widget.activeTimers|;
  }
}
