/**
 * UTweenWorldSubSystem: the per-world list of tick delegates that object
 * tweens register, run once per frame by Tick, last first, dropping every
 * delegate that reports false.
 *
 * A delegate is the step lambda of an object tween: the copy of the tween it
 * captured and the object whose liveness it checks.
 */
module TweenWorld {
  import opened TweenUpdate

  /**
   * An engine object a tween may target. `valid` is what its weak pointer
   * reports; `subsystem` is the tween subsystem of its world, null when the
   * object has no world.
   */
  class UObject {
    var valid: bool
    const subsystem: TweenWorldSubSystem?

    constructor(valid: bool, subsystem: TweenWorldSubSystem?)
      ensures this.valid == valid && this.subsystem == subsystem
    {
      this.valid := valid;
      this.subsystem := subsystem;
    }
  }

  datatype TickDelegate = TickDelegate(tween: TweenState, target: UObject)

  /** One call of a delegate during Tick, with the delta it was given. */
  datatype Execution = Execution(delegate: TickDelegate, deltaTime: real)

  /** Start never registers a tween with a zero Duration, so no delegate divides 0 by 0. */
  ghost predicate AllRegistered(ds: seq<TickDelegate>)
  {
    forall i :: 0 <= i < |ds| ==> ds[i].tween.duration != 0.0
  }

  /** What each delegate's target reports when asked whether it is still valid. */
  ghost function Liveness(ds: seq<TickDelegate>): (r: seq<bool>)
    reads set i | 0 <= i < |ds| :: ds[i].target
    ensures |r| == |ds| && forall i :: 0 <= i < |ds| ==> r[i] == ds[i].target.valid
  {
    seq(|ds|, i reads set i | 0 <= i < |ds| :: ds[i].target => 0 <= i < |ds| && ds[i].target.valid)
  }

  /**
   * Delegates[Index].Execute(DeltaTime), the target reporting `alive`: the
   * delegate with its copy advanced by the step, and whether the step wants
   * to be called again.
   */
  function Execute(d: TickDelegate, alive: bool, dt: real): (r: (TickDelegate, bool))
    requires d.tween.duration != 0.0
    ensures r.0.target == d.target && SameSetup(d.tween, r.0.tween)
    ensures r.1 <==> alive && Update(d.tween, dt).1 == Continue
    ensures !alive ==> r.0 == d
    ensures alive ==> r.0.tween == Update(d.tween, dt).0
  {
    var (tween, keep) := ObjectStep(d.tween, alive, dt);
    (d.(tween := tween), keep)
  }

  /** What remains of `ds` after one Tick: each kept delegate with its advanced copy, in order. */
  function Survivors(ds: seq<TickDelegate>, alive: seq<bool>, dt: real): (r: seq<TickDelegate>)
    requires |alive| == |ds| && AllRegistered(ds)
    ensures AllRegistered(r)
  {
    if ds == [] then []
    else
      var (d, keep) := Execute(ds[0], alive[0], dt);
      var rest := Survivors(ds[1..], alive[1..], dt);
      if keep then [d] + rest else rest
  }

  /** The calls Tick makes on `ds`, in the order it makes them. */
  function Executions(ds: seq<TickDelegate>, dt: real): seq<Execution>
  {
    if ds == [] then [] else Executions(ds[1..], dt) + [Execution(ds[0], dt)]
  }

  /**
   * The indices of the delegates of `ds` whose step is kept, in ascending
   * order, counting the first delegate as index `base`.
   */
  function Kept(ds: seq<TickDelegate>, alive: seq<bool>, dt: real, base: nat): seq<nat>
    requires |alive| == |ds| && AllRegistered(ds)
  {
    if ds == [] then []
    else
      (if Execute(ds[0], alive[0], dt).1 then [base] else []) + Kept(ds[1..], alive[1..], dt, base + 1)
  }

  /**
   * Tick makes exactly one call per delegate present at entry, all with the
   * same delta, the last delegate first.
   */
  lemma {:induction false} ExecutionsAreBackward(ds: seq<TickDelegate>, dt: real)
    ensures |Executions(ds, dt)| == |ds|
    ensures forall k :: 0 <= k < |ds| ==> Executions(ds, dt)[k] == Execution(ds[|ds| - 1 - k], dt)
  {
    if ds != [] {
      ExecutionsAreBackward(ds[1..], dt);
      var e := Executions(ds, dt);
      forall k | 0 <= k < |ds| ensures e[k] == Execution(ds[|ds| - 1 - k], dt) {
        if k < |ds| - 1 {
          assert e[k] == Executions(ds[1..], dt)[k];
          assert ds[1..][|ds[1..]| - 1 - k] == ds[|ds| - 1 - k];
        }
      }
    }
  }

  lemma TailRegistered(ds: seq<TickDelegate>)
    requires ds != [] && AllRegistered(ds)
    ensures AllRegistered(ds[1..])
  {
    forall i | 0 <= i < |ds[1..]| ensures ds[1..][i].tween.duration != 0.0 { assert ds[1..][i] == ds[i + 1]; }
  }

  /** Tick keeps as many delegates as report true, so an empty list stays empty. */
  lemma {:induction false} SurvivorsCount(ds: seq<TickDelegate>, alive: seq<bool>, dt: real, base: nat)
    requires |alive| == |ds| && AllRegistered(ds)
    ensures |Survivors(ds, alive, dt)| == |Kept(ds, alive, dt, base)| <= |ds|
  {
    if ds != [] {
      TailRegistered(ds);
      SurvivorsCount(ds[1..], alive[1..], dt, base + 1);
    }
  }

  /** The kept indices are in ascending order and within the list. */
  lemma {:induction false} KeptAscending(ds: seq<TickDelegate>, alive: seq<bool>, dt: real, base: nat)
    requires |alive| == |ds| && AllRegistered(ds)
    ensures forall j :: 0 <= j < |Kept(ds, alive, dt, base)| ==>
              base <= Kept(ds, alive, dt, base)[j] < base + |ds|
    ensures forall j, k :: 0 <= j < k < |Kept(ds, alive, dt, base)| ==>
              Kept(ds, alive, dt, base)[j] < Kept(ds, alive, dt, base)[k]
  {
    if ds != [] {
      TailRegistered(ds);
      KeptAscending(ds[1..], alive[1..], dt, base + 1);
    }
  }

  /** An index is kept exactly when the step of the delegate there reports true. */
  lemma {:induction false} KeptExactly(ds: seq<TickDelegate>, alive: seq<bool>, dt: real, base: nat)
    requires |alive| == |ds| && AllRegistered(ds)
    ensures forall i :: i in Kept(ds, alive, dt, base) <==>
              base <= i < base + |ds| && Execute(ds[i - base], alive[i - base], dt).1
  {
    if ds != [] {
      TailRegistered(ds);
      KeptExactly(ds[1..], alive[1..], dt, base + 1);
      forall j | 1 <= j < |ds| ensures ds[j] == ds[1..][j - 1] && alive[j] == alive[1..][j - 1] {
      }
    }
  }

  /**
   * The j-th survivor of `ds` is the delegate at the j-th kept index (which
   * lies within the list), with the copy its step advanced.
   */
  lemma {:induction false} SurvivorsAtKept(ds: seq<TickDelegate>, alive: seq<bool>, dt: real, base: nat, j: nat)
    requires |alive| == |ds| && AllRegistered(ds)
    requires j < |Kept(ds, alive, dt, base)|
    ensures j < |Survivors(ds, alive, dt)|
    ensures base <= Kept(ds, alive, dt, base)[j] < base + |ds|
    ensures Survivors(ds, alive, dt)[j] ==
            Execute(ds[Kept(ds, alive, dt, base)[j] - base], alive[Kept(ds, alive, dt, base)[j] - base], dt).0
  {
    SurvivorsCount(ds, alive, dt, base);
    TailRegistered(ds);
    if !Execute(ds[0], alive[0], dt).1 || j > 0 {
      var j' := if Execute(ds[0], alive[0], dt).1 then j - 1 else j;
      SurvivorsAtKept(ds[1..], alive[1..], dt, base + 1, j');
      var n := Kept(ds[1..], alive[1..], dt, base + 1)[j'] - (base + 1);
      assert ds[1..][n] == ds[n + 1] && alive[1..][n] == alive[n + 1];
    }
  }

  /**
   * One step of Tick's backward walk: growing the visited suffix by the
   * entry at `index` keeps both parts registered, prepends that entry's
   * survivor (if any) and appends its execution.
   */
  lemma SuffixStep(all: seq<TickDelegate>, alive: seq<bool>, index: nat, dt: real)
    requires index < |all| == |alive|
    requires AllRegistered(all[..index + 1]) && AllRegistered(all[index + 1..])
    ensures AllRegistered(all[..index]) && AllRegistered(all[index..])
    ensures all[index].tween.duration != 0.0
    ensures Survivors(all[index..], alive[index..], dt) ==
            (if Execute(all[index], alive[index], dt).1 then [Execute(all[index], alive[index], dt).0] else [])
            + Survivors(all[index + 1..], alive[index + 1..], dt)
    ensures Executions(all[index..], dt) == Executions(all[index + 1..], dt) + [Execution(all[index], dt)]
  {
    var suffix := all[index..];
    assert suffix[1..] == all[index + 1..] && suffix[0] == all[index];
    assert alive[index..][1..] == alive[index + 1..] && alive[index..][0] == alive[index];
    assert all[index] == all[..index + 1][index];
    forall i | 0 <= i < index ensures all[..index][i].tween.duration != 0.0 {
      assert all[..index][i] == all[..index + 1][i];
    }
    forall i | 0 <= i < |suffix| ensures suffix[i].tween.duration != 0.0 {
      if i > 0 {
        assert suffix[i] == all[index + 1..][i - 1];
      }
    }
  }

  /** Replacing or removing the entry between `prefix` and `rest`. */
  lemma SpliceAt(prefix: seq<TickDelegate>, x: TickDelegate, rest: seq<TickDelegate>)
    ensures (prefix + [x] + rest)[|prefix|] == x
    ensures (prefix + [x] + rest)[..|prefix|] + (prefix + [x] + rest)[|prefix| + 1..] == prefix + rest
    ensures forall y :: (prefix + [x] + rest)[|prefix| := y] == prefix + [y] + rest
  {
    var s := prefix + [x] + rest;
    assert s[..|prefix|] == prefix && s[|prefix| + 1..] == rest;
    forall y ensures s[|prefix| := y] == prefix + [y] + rest {
      assert |s[|prefix| := y]| == |prefix + [y] + rest|;
    }
  }

  class TweenWorldSubSystem {
    var delegates: seq<TickDelegate>
    /** Every delegate call made by Tick so far, in order. */
    ghost var executions: seq<Execution>

    ghost predicate Valid()
      reads this
    {
      AllRegistered(delegates)
    }

    constructor()
      ensures Valid() && delegates == [] && executions == []
    {
      delegates := [];
      executions := [];
    }

    /** AddDelegate: append one delegate; the others keep their place. */
    method AddDelegate(d: TickDelegate)
      requires Valid() && d.tween.duration != 0.0
      modifies this
      ensures Valid()
      ensures delegates == old(delegates) + [d]
      ensures executions == old(executions)
    {
      delegates := delegates + [d];
    }

    /**
     * Tick: from the last index down to 0, execute the delegate and remove
     * it in place when it returns false. Removing at Index only shifts the
     * entries after it, which have been visited already.
     */
    method Tick(dt: real)
      requires Valid()
      modifies this
      ensures Valid()
      ensures delegates == Survivors(old(delegates), old(Liveness(delegates)), dt)
      ensures executions == old(executions) + Executions(old(delegates), dt)
    {
      ghost var all := delegates;
      ghost var alive := Liveness(delegates);
      var index := |delegates| - 1;
      while index >= 0
        invariant -1 <= index < |all|
        invariant |alive| == |all|
        invariant forall i :: 0 <= i < |all| ==> all[i].target.valid == alive[i]
        invariant AllRegistered(all[..index + 1]) && AllRegistered(all[index + 1..])
        invariant delegates == all[..index + 1] + Survivors(all[index + 1..], alive[index + 1..], dt)
        invariant executions == old(executions) + Executions(all[index + 1..], dt)
        decreases index
      {
        ghost var rest := Survivors(all[index + 1..], alive[index + 1..], dt);
        assert all[..index + 1] == all[..index] + [all[index]];
        SpliceAt(all[..index], all[index], rest);
        var (next, keep) := Execute(delegates[index], delegates[index].target.valid, dt);
        executions := executions + [Execution(all[index], dt)];
        if keep {
          delegates := delegates[index := next];
        } else {
          delegates := delegates[..index] + delegates[index + 1..];
        }
        SuffixStep(all, alive, index, dt);
        index := index - 1;
      }
      assert all[0..] == all && alive[0..] == alive;
    }
  }
}
