/**
 * The part of a Slate widget that a widget tween talks to: its list of
 * active timers. RegisterActiveTimer and UnRegisterActiveTimer belong to the
 * engine; here registering appends a timer under a fresh handle and
 * unregistering drops the timers under a handle. A timer holds the copy of
 * the tween that the registered step works on.
 */
module WidgetTimers {
  import opened TweenUpdate

  datatype ActiveTimer = ActiveTimer(handle: nat, tween: TweenState)

  /** The tween's weak pointer to its active timer handle; NoHandle before Start. */
  datatype TimerHandle = NoHandle | Handle(id: nat)

  /** The timers of `timers` that are not registered under `h`, in their order. */
  function WithoutHandle(timers: seq<ActiveTimer>, h: nat): (r: seq<ActiveTimer>)
    ensures |r| <= |timers|
    ensures forall t :: t in r <==> t in timers && t.handle != h
  {
    if timers == [] then []
    else (if timers[0].handle == h then [] else [timers[0]]) + WithoutHandle(timers[1..], h)
  }

  class Widget {
    var activeTimers: seq<ActiveTimer>
    var nextHandle: nat

    /** Every handle in use was issued before and belongs to one timer. */
    ghost predicate Valid()
      reads this
    {
      && (forall i :: 0 <= i < |activeTimers| ==> activeTimers[i].handle < nextHandle)
      && IssuedInOrder(activeTimers)
    }

    /** Whether a handle still refers to a timer of this widget (the weak pointer is still valid). */
    predicate HasTimer(h: nat)
      reads this
    {
      exists i :: 0 <= i < |activeTimers| && activeTimers[i].handle == h
    }

    constructor()
      ensures Valid() && activeTimers == []
    {
      activeTimers := [];
      nextHandle := 0;
    }

    method RegisterActiveTimer(tween: TweenState) returns (h: nat)
      requires Valid()
      modifies this
      ensures Valid()
      ensures !old(HasTimer(h))
      ensures activeTimers == old(activeTimers) + [ActiveTimer(h, tween)]
    {
      h := nextHandle;
      activeTimers := activeTimers + [ActiveTimer(h, tween)];
      nextHandle := nextHandle + 1;
    }

    method UnRegisterActiveTimer(h: nat)
      requires Valid()
      modifies this
      ensures Valid() && !HasTimer(h)
      ensures activeTimers == WithoutHandle(old(activeTimers), h)
      ensures nextHandle == old(nextHandle)
    {
      WithoutHandleInOrder(activeTimers, h);
      activeTimers := WithoutHandle(activeTimers, h);
    }
  }

  /** Handles appear in the order they were issued, so no two timers share one. */
  ghost predicate IssuedInOrder(timers: seq<ActiveTimer>)
  {
    forall i, j :: 0 <= i < j < |timers| ==> timers[i].handle < timers[j].handle
  }

  /** Dropping the timers under one handle keeps the others in issue order. */
  lemma {:induction false} WithoutHandleInOrder(timers: seq<ActiveTimer>, h: nat)
    requires IssuedInOrder(timers)
    ensures IssuedInOrder(WithoutHandle(timers, h))
  {
    if timers != [] {
      var rest := WithoutHandle(timers[1..], h);
      TailInOrder(timers);
      WithoutHandleInOrder(timers[1..], h);
      if timers[0].handle != h {
        assert WithoutHandle(timers, h) == [timers[0]] + rest;
        forall t | t in rest ensures timers[0].handle < t.handle {
          var k :| 0 <= k < |timers[1..]| && timers[1..][k] == t;
          assert t == timers[k + 1];
        }
        ConsInOrder(timers[0], rest);
      }
    }
  }

  lemma TailInOrder(timers: seq<ActiveTimer>)
    requires timers != [] && IssuedInOrder(timers)
    ensures IssuedInOrder(timers[1..])
  {
    forall i, j | 0 <= i < j < |timers[1..]| ensures timers[1..][i].handle < timers[1..][j].handle {
      assert timers[1..][i] == timers[i + 1] && timers[1..][j] == timers[j + 1];
    }
  }

  lemma ConsInOrder(first: ActiveTimer, rest: seq<ActiveTimer>)
    requires IssuedInOrder(rest) && forall t :: t in rest ==> first.handle < t.handle
    ensures IssuedInOrder([first] + rest)
  {
    var r := [first] + rest;
    forall i, j | 0 <= i < j < |r| ensures r[i].handle < r[j].handle {
      assert r[j] == rest[j - 1];
      if i > 0 {
        assert r[i] == rest[i - 1];
      }
    }
  }
}
