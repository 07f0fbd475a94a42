/**
 * The easing catalogue of the BasicTween plugin (class FEase and enum Ease).
 *
 * Every curve maps a normalised progress `alpha` to an interpolation weight.
 * The curves are modelled over `real`: the polynomial ones exactly, the
 * transcendental ones (sine, exponential, circular and the interior of the
 * elastic curves) only by name and, for the elastic curves, by their clamps.
 */
module Easing {

  datatype Option<T> = None | Some(value: T)

  /** The 31 curve identifiers, in declaration order. */
  datatype Ease =
    | Linear | Stepped
    | QuadIn | QuadOut | QuadInOut
    | CubicIn | CubicOut | CubicInOut
    | QuarticIn | QuarticOut | QuarticInOut
    | QuinticIn | QuinticOut | QuinticInOut
    | SineIn | SineOut | SineInOut
    | ExponentialIn | ExponentialOut | ExponentialInOut
    | CircularIn | CircularOut | CircularInOut
    | BounceIn | BounceOut | BounceInOut
    | ElasticIn | ElasticOut | ElasticInOut
    | BackIn | BackOut | BackInOut

  /** Which end of the curve the easing is applied to. */
  datatype Shape = In | Out | InOut

  /**
   * What a factory of FEase returns: the curve family, its shape and the
   * parameters the returned lambda captures.
   */
  datatype EasingFunction =
    | LinearFn
    | PowFn(shape: Shape, pow: nat)
    | SineFn(shape: Shape)
    | ExponentialFn(shape: Shape)
    | CircularFn(shape: Shape)
    | BounceFn(shape: Shape)
    | ElasticFn(shape: Shape, amplitude: real, period: real)
    | BackFn(shape: Shape, amount: real)

  /** FEase::GetEaseFunction: `Stepped` has no case and takes the default, Linear. */
  function GetEaseFunction(e: Ease): (r: EasingFunction)
    ensures r == LinearFn <==> e == Linear || e == Stepped
    ensures r.PowFn? ==> 2 <= r.pow <= 5
    ensures r.ElasticFn? <==> e == ElasticIn || e == ElasticOut || e == ElasticInOut
    ensures r.ElasticFn? ==> r.shape == (if e == ElasticIn then In else if e == ElasticOut then Out else InOut)
    ensures r.ElasticFn? ==> r.amplitude == 1.0 && r.period == (if r.shape == InOut then 0.45 else 0.3)
    ensures r.BackFn? ==> r.amount == 1.5
  {
    match e
    case Linear => LinearFn
    case QuadIn => PowFn(In, 2)
    case QuadOut => PowFn(Out, 2)
    case QuadInOut => PowFn(InOut, 2)
    case CubicIn => PowFn(In, 3)
    case CubicOut => PowFn(Out, 3)
    case CubicInOut => PowFn(InOut, 3)
    case QuarticIn => PowFn(In, 4)
    case QuarticOut => PowFn(Out, 4)
    case QuarticInOut => PowFn(InOut, 4)
    case QuinticIn => PowFn(In, 5)
    case QuinticOut => PowFn(Out, 5)
    case QuinticInOut => PowFn(InOut, 5)
    case SineIn => SineFn(In)
    case SineOut => SineFn(Out)
    case SineInOut => SineFn(InOut)
    case ExponentialIn => ExponentialFn(In)
    case ExponentialOut => ExponentialFn(Out)
    case ExponentialInOut => ExponentialFn(InOut)
    case CircularIn => CircularFn(In)
    case CircularOut => CircularFn(Out)
    case CircularInOut => CircularFn(InOut)
    case BounceIn => BounceFn(In)
    case BounceOut => BounceFn(Out)
    case BounceInOut => BounceFn(InOut)
    case ElasticIn => ElasticFn(In, 1.0, 0.3)
    case ElasticOut => ElasticFn(Out, 1.0, 0.3)
    case ElasticInOut => ElasticFn(InOut, 1.0, 0.45)
    case BackIn => BackFn(In, 1.5)
    case BackOut => BackFn(Out, 1.5)
    case BackInOut => BackFn(InOut, 1.5)
    case _ => LinearFn
  }

  /**
   * The value of a curve at `alpha`, where the model has one: `None` stands
   * for a transcendental value (sine, exponential, circular curves and the
   * interior of the elastic curves).
   */
  function Value(f: EasingFunction, alpha: real): (r: Option<real>)
    ensures r.None? <==> f.SineFn? || f.ExponentialFn? || f.CircularFn? || (f.ElasticFn? && 0.0 < alpha < 1.0)
  {
    match f
    case LinearFn => Some(LinearCurve(alpha))
    case PowFn(shape, pow) =>
      Some(match shape
           case In => PowIn(pow, alpha)
           case Out => PowOut(pow, alpha)
           case InOut => PowInOut(pow, alpha))
    case SineFn(_) => None
    case ExponentialFn(_) => None
    case CircularFn(_) => None
    case BounceFn(shape) =>
      Some(match shape
           case In => BounceInCurve(alpha)
           case Out => BounceOutCurve(alpha)
           case InOut => BounceInOutCurve(alpha))
    case ElasticFn(_, _, _) => ElasticBoundary(alpha)
    case BackFn(shape, amount) =>
      Some(match shape
           case In => BackInCurve(amount, alpha)
           case Out => BackOutCurve(amount, alpha)
           case InOut => BackInOutCurve(amount, alpha))
  }

  // ---------------------------------------------------------------------
  // Arithmetic helpers (FMath::Pow with an integer exponent, FMath::Abs)

  function Pow(x: real, n: nat): real
  {
    if n == 0 then 1.0 else x * Pow(x, n - 1)
  }

  function Abs(x: real): real
  {
    if x < 0.0 then -x else x
  }

  lemma MulNonNegative(a: real, b: real)
    requires a >= 0.0 && b >= 0.0
    ensures a * b >= 0.0
  {
  }

  lemma AbsOfProduct(a: real, b: real)
    ensures Abs(a * b) == Abs(a) * Abs(b)
  {
    if a < 0.0 {
      MulNonNegative(-a, if b < 0.0 then -b else b);
    } else {
      MulNonNegative(a, if b < 0.0 then -b else b);
    }
  }

  lemma {:induction false} PowOfOne(n: nat)
    ensures Pow(1.0, n) == 1.0
  {
    if n > 0 { PowOfOne(n - 1); }
  }

  lemma PowOfZero(n: nat)
    requires n >= 1
    ensures Pow(0.0, n) == 0.0
  {
  }

  /** Raising a number in [0, 1] to a natural power stays in [0, 1]. */
  lemma {:induction false} PowUnitInterval(x: real, n: nat)
    requires 0.0 <= x <= 1.0
    ensures 0.0 <= Pow(x, n) <= 1.0
  {
    if n > 0 {
      PowUnitInterval(x, n - 1);
      var p := Pow(x, n - 1);
      MulNonNegative(x, p);
      MulNonNegative(1.0 - x, p);
      assert p - x * p == (1.0 - x) * p;
    }
  }

  /** |x^n| = |x|^n, so the Abs at Ease.h:111 can be moved inside the power. */
  lemma {:induction false} AbsOfPow(x: real, n: nat)
    ensures Abs(Pow(x, n)) == Pow(Abs(x), n)
  {
    if n > 0 {
      AbsOfPow(x, n - 1);
      AbsOfProduct(x, Pow(x, n - 1));
    }
  }

  /** 2^n is at least 2 for every positive n. */
  lemma {:induction false} PowOfTwoAtLeastTwo(n: nat)
    requires n >= 1
    ensures Pow(2.0, n) >= 2.0
  {
    if n > 1 { PowOfTwoAtLeastTwo(n - 1); }
  }

  // ---------------------------------------------------------------------
  // Linear and the power family

  function LinearCurve(alpha: real): real
  {
    alpha
  }

  function PowIn(pow: nat, alpha: real): real
  {
    Pow(alpha, pow)
  }

  function PowOut(pow: nat, alpha: real): real
  {
    1.0 - Pow(1.0 - alpha, pow)
  }

  /** As written: `Value` is doubled twice, so the branch point is alpha = 1/4. */
  function PowInOut(pow: nat, alpha: real): real
  {
    var value := 2.0 * alpha;
    var value := value * 2.0;
    if value < 1.0 then 0.5 * Pow(value, pow)
    else 1.0 - 0.5 * Abs(Pow(2.0 - value, pow))
  }

  /** PowInOut with the evident intent: `Value` doubled once, branch point 1/2. */
  function PowInOutIntended(pow: nat, alpha: real): real
  {
    if 2.0 * alpha < 1.0 then PowInOutFirstHalf(pow, alpha) else PowInOutSecondHalf(pow, alpha)
  }

  /** The branch of the in-out power curve taken before the midpoint. */
  function PowInOutFirstHalf(pow: nat, alpha: real): real
  {
    0.5 * Pow(2.0 * alpha, pow)
  }

  /** The branch of the in-out power curve taken from the midpoint on. */
  function PowInOutSecondHalf(pow: nat, alpha: real): real
  {
    1.0 - 0.5 * Abs(Pow(2.0 - 2.0 * alpha, pow))
  }

  lemma PowInEndpoints(pow: nat)
    requires pow >= 1
    ensures PowIn(pow, 0.0) == 0.0 && PowIn(pow, 1.0) == 1.0
  {
    PowOfZero(pow);
    PowOfOne(pow);
  }

  lemma PowOutEndpoints(pow: nat)
    requires pow >= 1
    ensures PowOut(pow, 0.0) == 0.0 && PowOut(pow, 1.0) == 1.0
  {
    PowOfZero(pow);
    PowOfOne(pow);
  }

  /** On [0, 1], PowIn and PowOut stay in [0, 1]. */
  lemma PowInAndOutBounded(pow: nat, alpha: real)
    requires 0.0 <= alpha <= 1.0
    ensures 0.0 <= PowIn(pow, alpha) <= 1.0
    ensures 0.0 <= PowOut(pow, alpha) <= 1.0
  {
    PowUnitInterval(alpha, pow);
    PowUnitInterval(1.0 - alpha, pow);
  }

  /** The curve as written is the intended one run at double speed. */
  lemma PowInOutIsIntendedAtDoubleSpeed(pow: nat, alpha: real)
    ensures PowInOut(pow, alpha) == PowInOutIntended(pow, 2.0 * alpha)
  {
  }

  /**
   * As written: 0 at alpha = 0, already 1 at alpha = 1/2, and 1 - 2^p / 2 at
   * alpha = 1, which is 0 for p = 1 and negative for every p >= 2.
   */
  lemma PowInOutAsWrittenEndpoints(pow: nat)
    requires pow >= 1
    ensures PowInOut(pow, 0.0) == 0.0
    ensures PowInOut(pow, 0.5) == 1.0
    ensures PowInOut(pow, 1.0) == 1.0 - 0.5 * Pow(2.0, pow)
    ensures pow >= 2 ==> PowInOut(pow, 1.0) < 0.0
  {
    PowOfZero(pow);
    AbsOfPow(-2.0, pow);
    assert Abs(-2.0) == 2.0;
    PowOfTwoAtLeastTwo(pow);
    if pow >= 2 {
      assert Pow(2.0, pow) == 2.0 * Pow(2.0, pow - 1);
      PowOfTwoAtLeastTwo(pow - 1);
    }
  }

  /** The intended curve runs from 0 through 1/2 (from both sides) to 1. */
  lemma PowInOutIntendedEndpoints(pow: nat)
    requires pow >= 1
    ensures PowInOutIntended(pow, 0.0) == 0.0
    ensures PowInOutIntended(pow, 0.5) == 0.5 && PowInOutFirstHalf(pow, 0.5) == 0.5
    ensures PowInOutIntended(pow, 1.0) == 1.0
  {
    PowOfZero(pow);
    PowOfOne(pow);
  }

  /** The intended curve maps [0, 1] into [0, 1]. */
  lemma PowInOutIntendedBounded(pow: nat, alpha: real)
    requires 0.0 <= alpha <= 1.0
    ensures 0.0 <= PowInOutIntended(pow, alpha) <= 1.0
  {
    var value := 2.0 * alpha;
    if value < 1.0 {
      PowUnitInterval(value, pow);
    } else {
      PowUnitInterval(2.0 - value, pow);
    }
  }

  // ---------------------------------------------------------------------
  // Bounce

  /** One parabolic arc of Bounce: 7.5625 (alpha - centre)^2 + offset. */
  function Arc(alpha: real, centre: real, offset: real): real
  {
    7.5625 * (alpha - centre) * (alpha - centre) + offset
  }

  /** FEase::Bounce: four arcs with breakpoints 1/2.75, 2/2.75 and 2.5/2.75. */
  function Bounce(alpha: real): real
  {
    if alpha < 1.0 / 2.75 then Arc(alpha, 0.0, 0.0)
    else if alpha < 2.0 / 2.75 then Arc(alpha, 1.5 / 2.75, 0.75)
    else if alpha < 2.5 / 2.75 then Arc(alpha, 2.25 / 2.75, 0.9375)
    else Arc(alpha, 2.625 / 2.75, 0.984375)
  }

  function BounceInCurve(alpha: real): real
  {
    Bounce(1.0 - alpha)
  }

  function BounceOutCurve(alpha: real): real
  {
    Bounce(alpha)
  }

  function BounceInOutCurve(alpha: real): real
  {
    0.5 * (if alpha < 0.5 then Bounce(1.0 - alpha) else Bounce(alpha))
  }

  /** BounceIn with the evident intent: the mirror image of BounceOut. */
  function BounceInIntended(alpha: real): real
  {
    1.0 - Bounce(1.0 - alpha)
  }

  /** BounceInOut with the evident intent: BounceIn on the first half, BounceOut on the second. */
  function BounceInOutIntended(alpha: real): real
  {
    if alpha < 0.5 then BounceInOutFirstHalf(alpha) else BounceInOutSecondHalf(alpha)
  }

  /** The first half of the intended BounceInOut: BounceIn at double speed, squeezed into [0, 1/2]. */
  function BounceInOutFirstHalf(alpha: real): real
  {
    0.5 * BounceInIntended(2.0 * alpha)
  }

  /** The second half of the intended BounceInOut: BounceOut at double speed, squeezed into [1/2, 1]. */
  function BounceInOutSecondHalf(alpha: real): real
  {
    0.5 * BounceOutCurve(2.0 * alpha - 1.0) + 0.5
  }

  /** Bounce starts at 0 and ends at 1. */
  lemma BounceEnds()
    ensures Bounce(0.0) == 0.0 && Bounce(1.0) == 1.0
  {
  }

  /** At every breakpoint the arc on the left and the arc on the right both reach 1. */
  lemma BounceContinuous()
    ensures Arc(1.0 / 2.75, 0.0, 0.0) == 1.0 == Arc(1.0 / 2.75, 1.5 / 2.75, 0.75)
    ensures Arc(2.0 / 2.75, 1.5 / 2.75, 0.75) == 1.0 == Arc(2.0 / 2.75, 2.25 / 2.75, 0.9375)
    ensures Arc(2.5 / 2.75, 2.25 / 2.75, 0.9375) == 1.0 == Arc(2.5 / 2.75, 2.625 / 2.75, 0.984375)
    ensures Bounce(1.0 / 2.75) == 1.0 && Bounce(2.0 / 2.75) == 1.0 && Bounce(2.5 / 2.75) == 1.0
  {
    assert Arc(1.0 / 2.75, 0.0, 0.0) == 1.0;
    assert Arc(1.0 / 2.75, 1.5 / 2.75, 0.75) == 1.0;
    assert Arc(2.0 / 2.75, 1.5 / 2.75, 0.75) == 1.0;
    assert Arc(2.0 / 2.75, 2.25 / 2.75, 0.9375) == 1.0;
    assert Arc(2.5 / 2.75, 2.25 / 2.75, 0.9375) == 1.0;
  }

  lemma SquareBounded(d: real, b: real)
    requires 0.0 <= b && -b <= d <= b
    ensures 0.0 <= d * d <= b * b
  {
    if d >= 0.0 {
      assert d * d <= d * b <= b * b;
    } else {
      assert (-d) * (-d) <= (-d) * b <= b * b;
    }
  }

  /** Bounce maps [0, 1] into [0, 1]. */
  lemma BounceBounded(alpha: real)
    requires 0.0 <= alpha <= 1.0
    ensures 0.0 <= Bounce(alpha) <= 1.0
  {
    if alpha < 1.0 / 2.75 {
      SquareBounded(alpha, 4.0 / 11.0);
    } else if alpha < 2.0 / 2.75 {
      SquareBounded(alpha - 1.5 / 2.75, 2.0 / 11.0);
    } else if alpha < 2.5 / 2.75 {
      SquareBounded(alpha - 2.25 / 2.75, 1.0 / 11.0);
    } else {
      SquareBounded(alpha - 2.625 / 2.75, 1.0 / 22.0);
    }
  }

  /** As written, BounceIn runs backwards: from 1 at alpha = 0 down to 0 at alpha = 1. */
  lemma BounceInAsWrittenEndpoints()
    ensures BounceInCurve(0.0) == 1.0 && BounceInCurve(1.0) == 0.0
  {
    BounceEnds();
  }

  /** As written, BounceInOut starts and ends at 1/2. */
  lemma BounceInOutAsWrittenEndpoints()
    ensures BounceInOutCurve(0.0) == 0.5 && BounceInOutCurve(1.0) == 0.5
  {
    BounceEnds();
  }

  /** The intended BounceIn runs from 0 to 1. */
  lemma BounceInIntendedEndpoints()
    ensures BounceInIntended(0.0) == 0.0 && BounceInIntended(1.0) == 1.0
  {
    BounceInIntendedAt(0.0, 1.0);
    BounceInIntendedAt(1.0, 0.0);
  }

  lemma BounceInIntendedAt(alpha: real, mirrored: real)
    requires mirrored == 1.0 - alpha && (mirrored == 0.0 || mirrored == 1.0)
    ensures BounceInIntended(alpha) == 1.0 - mirrored
  {
    BounceEnds();
  }

  /** The intended BounceIn maps [0, 1] into [0, 1]. */
  lemma BounceInIntendedBounded(alpha: real)
    requires 0.0 <= alpha <= 1.0
    ensures 0.0 <= BounceInIntended(alpha) <= 1.0
  {
    BounceBounded(1.0 - alpha);
  }

  /** The intended BounceInOut runs from 0 to 1. */
  lemma BounceInOutIntendedEndpoints()
    ensures BounceInOutIntended(0.0) == 0.0 && BounceInOutIntended(1.0) == 1.0
  {
    BounceInOutIntendedAt(0.0);
    BounceInOutIntendedAt(1.0);
  }

  lemma BounceInOutIntendedAt(alpha: real)
    requires alpha == 0.0 || alpha == 1.0
    ensures BounceInOutIntended(alpha) == alpha
  {
    if alpha == 0.0 {
      BounceInIntendedAt(2.0 * alpha, 1.0);
    } else {
      assert Bounce(2.0 * alpha - 1.0) == 1.0;
    }
  }

  /** Both halves of the intended BounceInOut meet at 1/2 at the midpoint. */
  lemma BounceInOutIntendedMidpoint()
    ensures BounceInOutFirstHalf(0.5) == 0.5 == BounceInOutSecondHalf(0.5)
    ensures BounceInOutIntended(0.5) == 0.5
  {
    FirstHalfAtMidpoint();
    SecondHalfAtMidpoint();
  }

  lemma FirstHalfAtMidpoint()
    ensures BounceInOutFirstHalf(0.5) == 0.5
  {
    assert Bounce(0.0) == 0.0;
  }

  lemma SecondHalfAtMidpoint()
    ensures BounceInOutSecondHalf(0.5) == 0.5
  {
    assert Bounce(0.0) == 0.0;
  }

  /** The intended BounceInOut maps [0, 1] into [0, 1]. */
  lemma BounceInOutIntendedBounded(alpha: real)
    requires 0.0 <= alpha <= 1.0
    ensures 0.0 <= BounceInOutIntended(alpha) <= 1.0
  {
    if alpha < 0.5 {
      BounceBounded(1.0 - 2.0 * alpha);
    } else {
      BounceBounded(2.0 * alpha - 1.0);
    }
  }

  // ---------------------------------------------------------------------
  // Elastic: only the clamps are modelled

  /** The clamps shared by ElasticIn, ElasticOut and ElasticInOut. */
  function ElasticBoundary(alpha: real): (r: Option<real>)
    ensures r.Some? <==> alpha <= 0.0 || alpha >= 1.0
    ensures alpha <= 0.0 ==> r == Some(0.0)
    ensures alpha >= 1.0 ==> r == Some(1.0)
  {
    if alpha <= 0.0 then Some(0.0)
    else if alpha >= 1.0 then Some(1.0)
    else None
  }

  // ---------------------------------------------------------------------
  // Back

  function BackInCurve(amount: real, alpha: real): real
  {
    alpha * alpha * ((amount + 1.0) * alpha - amount)
  }

  function BackOutCurve(amount: real, alpha: real): real
  {
    var value := alpha - 1.0;
    value * value * ((amount + 1.0) * value + amount) + 1.0
  }

  /** BackInOut scales the overshoot by 1.525 before building the lambda. */
  function BackInOutCurve(amount: real, alpha: real): real
  {
    var amount := amount * 1.525;
    var value := alpha * 2.0;
    if value < 1.0 then 0.5 * (value * value * ((amount + 1.0) * value - amount))
    else
      var value := value - 2.0;
      0.5 * (value * value * ((amount + 1.0) * value + amount) + 2.0)
  }

  /** The first half of BackInOut: BackIn with the scaled overshoot, at double speed, squeezed into [0, 1/2]. */
  function BackInOutFirstHalf(amount: real, alpha: real): real
  {
    0.5 * BackInCurve(amount * 1.525, 2.0 * alpha)
  }

  /** The second half of BackInOut: BackOut with the scaled overshoot, at double speed, squeezed into [1/2, 1]. */
  function BackInOutSecondHalf(amount: real, alpha: real): real
  {
    0.5 * BackOutCurve(amount * 1.525, 2.0 * alpha - 1.0) + 0.5
  }

  lemma BackEndpoints(amount: real)
    ensures BackInCurve(amount, 0.0) == 0.0 && BackInCurve(amount, 1.0) == 1.0
    ensures BackOutCurve(amount, 0.0) == 0.0 && BackOutCurve(amount, 1.0) == 1.0
    ensures BackInOutCurve(amount, 0.0) == 0.0 && BackInOutCurve(amount, 1.0) == 1.0
  {
  }

  /**
   * BackInOut is BackIn (first half) and BackOut (second half) with the
   * scaled overshoot, each squeezed into half the range; both halves meet at
   * 1/2 at the midpoint.
   */
  lemma BackInOutIsHalves(amount: real, alpha: real)
    ensures BackInOutCurve(amount, alpha) ==
            if alpha < 0.5 then BackInOutFirstHalf(amount, alpha) else BackInOutSecondHalf(amount, alpha)
    ensures BackInOutFirstHalf(amount, 0.5) == 0.5 == BackInOutSecondHalf(amount, 0.5)
    ensures BackInOutCurve(amount, 0.5) == 0.5
  {
    var a := amount * 1.525;
    if alpha >= 0.5 {
      var u := 2.0 * alpha - 1.0;
      var v := alpha * 2.0 - 2.0;
      assert u - 1.0 == v;
      var p := v * v * ((a + 1.0) * v + a);
      assert BackOutCurve(a, u) == p + 1.0;
      assert BackInOutCurve(amount, alpha) == 0.5 * (p + 2.0);
    } else {
      assert alpha * 2.0 == 2.0 * alpha;
    }
  }

  // ---------------------------------------------------------------------
  // The dispatcher, evaluated

  lemma PowUnfolded(x: real)
    ensures Pow(x, 2) == x * x
    ensures Pow(x, 3) == x * x * x
    ensures Pow(x, 4) == x * x * x * x
    ensures Pow(x, 5) == x * x * x * x * x
  {
    assert Pow(x, 1) == x;
  }

  /** The In power curves reached through the dispatcher are the written-out monomials. */
  lemma PolynomialInEases(alpha: real)
    ensures Value(GetEaseFunction(Ease.Linear), alpha) == Some(alpha)
    ensures Value(GetEaseFunction(Ease.Stepped), alpha) == Some(alpha)
    ensures Value(GetEaseFunction(Ease.QuadIn), alpha) == Some(alpha * alpha)
    ensures Value(GetEaseFunction(Ease.CubicIn), alpha) == Some(alpha * alpha * alpha)
    ensures Value(GetEaseFunction(Ease.QuarticIn), alpha) == Some(alpha * alpha * alpha * alpha)
    ensures Value(GetEaseFunction(Ease.QuinticIn), alpha) == Some(alpha * alpha * alpha * alpha * alpha)
  {
    PowUnfolded(alpha);
  }

  /** The Out power curves reached through the dispatcher are 1 - (1 - alpha)^p written out. */
  lemma PolynomialOutEases(alpha: real, b: real)
    requires b == 1.0 - alpha
    ensures Value(GetEaseFunction(Ease.QuadOut), alpha) == Some(1.0 - b * b)
    ensures Value(GetEaseFunction(Ease.CubicOut), alpha) == Some(1.0 - b * b * b)
    ensures Value(GetEaseFunction(Ease.QuarticOut), alpha) == Some(1.0 - b * b * b * b)
    ensures Value(GetEaseFunction(Ease.QuinticOut), alpha) == Some(1.0 - b * b * b * b * b)
  {
    PowUnfolded(b);
  }

  /**
   * For every curve that is meant to run from 0 to 1 and is modelled at its
   * ends (linear, the In and Out powers, BounceOut, the elastic and the back
   * curves), the dispatcher's curve is exactly 0 at alpha = 0 and 1 at alpha = 1.
   */
  lemma EndpointsHold(e: Ease)
    requires var f := GetEaseFunction(e);
             || f.LinearFn? || (f.PowFn? && f.shape != InOut) || f == BounceFn(Out)
             || f.ElasticFn? || f.BackFn?
    ensures Value(GetEaseFunction(e), 0.0) == Some(0.0)
    ensures Value(GetEaseFunction(e), 1.0) == Some(1.0)
  {
    ValueEndpoints(GetEaseFunction(e));
  }

  lemma ValueEndpoints(f: EasingFunction)
    requires || f.LinearFn? || (f.PowFn? && f.pow >= 1 && f.shape != InOut) || f == BounceFn(Out)
             || f.ElasticFn? || f.BackFn?
    ensures Value(f, 0.0) == Some(0.0) && Value(f, 1.0) == Some(1.0)
  {
    match f
    case PowFn(shape, pow) =>
      if shape == In { PowInEndpoints(pow); } else { PowOutEndpoints(pow); }
    case BounceFn(_) =>
      ValueOfBounce(Out, 0.0);
      ValueOfBounce(Out, 1.0);
      BounceEnds();
    case BackFn(_, amount) => BackEndpoints(amount);
    case _ =>
  }

  /** The in-out power curves reached through the dispatcher are PowInOut as written, with exponents 2 to 5. */
  lemma InOutPowerEases(alpha: real)
    ensures Value(GetEaseFunction(Ease.QuadInOut), alpha) == Some(PowInOut(2, alpha))
    ensures Value(GetEaseFunction(Ease.CubicInOut), alpha) == Some(PowInOut(3, alpha))
    ensures Value(GetEaseFunction(Ease.QuarticInOut), alpha) == Some(PowInOut(4, alpha))
    ensures Value(GetEaseFunction(Ease.QuinticInOut), alpha) == Some(PowInOut(5, alpha))
  {
  }

  /** The three bounce names reach the three bounce wrappers, each with its own shape. */
  lemma BounceEases(alpha: real)
    ensures Value(GetEaseFunction(Ease.BounceIn), alpha) == Some(BounceInCurve(alpha))
    ensures Value(GetEaseFunction(Ease.BounceOut), alpha) == Some(BounceOutCurve(alpha))
    ensures Value(GetEaseFunction(Ease.BounceInOut), alpha) == Some(BounceInOutCurve(alpha))
  {
    ValueOfBounce(In, alpha);
    ValueOfBounce(Out, alpha);
    ValueOfBounce(InOut, alpha);
  }

  /** The three back names reach the three back curves with the overshoot 1.5. */
  lemma BackEases(alpha: real)
    ensures Value(GetEaseFunction(Ease.BackIn), alpha) == Some(BackInCurve(1.5, alpha))
    ensures Value(GetEaseFunction(Ease.BackOut), alpha) == Some(BackOutCurve(1.5, alpha))
    ensures Value(GetEaseFunction(Ease.BackInOut), alpha) == Some(BackInOutCurve(1.5, alpha))
  {
    ValueOfBack(GetEaseFunction(Ease.BackIn), In, alpha);
    ValueOfBack(GetEaseFunction(Ease.BackOut), Out, alpha);
    ValueOfBack(GetEaseFunction(Ease.BackInOut), InOut, alpha);
  }

  /** Value of a back curve at a symbolic point. */
  lemma ValueOfBack(f: EasingFunction, shape: Shape, alpha: real)
    requires f == BackFn(shape, 1.5)
    ensures Value(f, alpha) ==
            Some(match shape
                 case In => BackInCurve(1.5, alpha)
                 case Out => BackOutCurve(1.5, alpha)
                 case InOut => BackInOutCurve(1.5, alpha))
  {
  }

  /** Value of a bounce curve at a symbolic point (keeps the arcs folded at literal points). */
  lemma ValueOfBounce(shape: Shape, alpha: real)
    ensures Value(BounceFn(shape), alpha) ==
            Some(match shape
                 case In => BounceInCurve(alpha)
                 case Out => BounceOutCurve(alpha)
                 case InOut => BounceInOutCurve(alpha))
  {
  }

  /** The in-out power curves reached through the dispatcher start at 0 but end at -1, -3, -7 and -15. */
  lemma InOutPowersMissTheTarget()
    ensures Value(GetEaseFunction(Ease.QuadInOut), 0.0) == Some(0.0)
    ensures Value(GetEaseFunction(Ease.QuadInOut), 1.0) == Some(-1.0)
    ensures Value(GetEaseFunction(Ease.CubicInOut), 0.0) == Some(0.0)
    ensures Value(GetEaseFunction(Ease.CubicInOut), 1.0) == Some(-3.0)
    ensures Value(GetEaseFunction(Ease.QuarticInOut), 0.0) == Some(0.0)
    ensures Value(GetEaseFunction(Ease.QuarticInOut), 1.0) == Some(-7.0)
    ensures Value(GetEaseFunction(Ease.QuinticInOut), 0.0) == Some(0.0)
    ensures Value(GetEaseFunction(Ease.QuinticInOut), 1.0) == Some(-15.0)
  {
    PowUnfolded(-2.0);
  }

  /** Through the dispatcher, BounceIn runs from 1 to 0. */
  lemma BounceInMissesTheTarget()
    ensures Value(GetEaseFunction(Ease.BounceIn), 0.0) == Some(1.0)
    ensures Value(GetEaseFunction(Ease.BounceIn), 1.0) == Some(0.0)
  {
    assert GetEaseFunction(Ease.BounceIn) == BounceFn(In);
    ValueOfBounce(In, 0.0);
    ValueOfBounce(In, 1.0);
    BounceInAsWrittenEndpoints();
  }

  /** Through the dispatcher, BounceInOut runs from 1/2 to 1/2. */
  lemma BounceInOutMissesTheTarget()
    ensures Value(GetEaseFunction(Ease.BounceInOut), 0.0) == Some(0.5)
    ensures Value(GetEaseFunction(Ease.BounceInOut), 1.0) == Some(0.5)
  {
    assert GetEaseFunction(Ease.BounceInOut) == BounceFn(InOut);
    ValueOfBounce(InOut, 0.0);
    ValueOfBounce(InOut, 1.0);
    BounceInOutAsWrittenEndpoints();
  }

  /** The elastic curves are exactly 0 at or below 0 and exactly 1 at or above 1. */
  lemma ElasticClamps(e: Ease, alpha: real)
    requires e in {Ease.ElasticIn, Ease.ElasticOut, Ease.ElasticInOut}
    ensures alpha <= 0.0 ==> Value(GetEaseFunction(e), alpha) == Some(0.0)
    ensures alpha >= 1.0 ==> Value(GetEaseFunction(e), alpha) == Some(1.0)
    ensures 0.0 < alpha < 1.0 ==> Value(GetEaseFunction(e), alpha) == None
  {
  }

  /** Each sine name reaches the sine family with the shape its name gives. */
  lemma SineDescriptors()
    ensures GetEaseFunction(Ease.SineIn) == SineFn(In)
    ensures GetEaseFunction(Ease.SineOut) == SineFn(Out)
    ensures GetEaseFunction(Ease.SineInOut) == SineFn(InOut)
  {
  }

  /** Each exponential name reaches the exponential family with the shape its name gives. */
  lemma ExponentialDescriptors()
    ensures GetEaseFunction(Ease.ExponentialIn) == ExponentialFn(In)
    ensures GetEaseFunction(Ease.ExponentialOut) == ExponentialFn(Out)
    ensures GetEaseFunction(Ease.ExponentialInOut) == ExponentialFn(InOut)
  {
  }

  /** Each circular name reaches the circular family with the shape its name gives. */
  lemma CircularDescriptors()
    ensures GetEaseFunction(Ease.CircularIn) == CircularFn(In)
    ensures GetEaseFunction(Ease.CircularOut) == CircularFn(Out)
    ensures GetEaseFunction(Ease.CircularInOut) == CircularFn(InOut)
  {
  }

  /** Sine, exponential and circular curves have no value in this model. */
  lemma TranscendentalEasesUnmodelled(e: Ease, alpha: real)
    requires e in {Ease.SineIn, Ease.SineOut, Ease.SineInOut, Ease.ExponentialIn, Ease.ExponentialOut,
                   Ease.ExponentialInOut, Ease.CircularIn, Ease.CircularOut, Ease.CircularInOut}
    ensures Value(GetEaseFunction(e), alpha) == None
  {
  }
}
