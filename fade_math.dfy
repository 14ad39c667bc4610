/**
 * Fader arithmetic of the mixer's control loop: normalisation of the analog
 * faders, the tap-button override of the crossfader, the per-mode resolver
 * that turns (crossfade, fade-up, fade curve) into the two windows' fade
 * levels, and the anti-flutter test that decides whether a level changed.
 *
 * The firmware computes in single/double precision floating point; here the
 * values are reals and the C float-to-int conversion is `Trunc`.
 */
module FadeMath {

  // Mix modes. Keyer set i is mix mode MixKey + i.
  const MixBlend: int := 0
  const MixAdditive: int := 1
  const MixKey: int := 2
  // Menu index of the first keyer entry (Blend and Additive share entry 0).
  const MixKeyStartIndex: int := 1

  const XFadeTolerance: real := 0.05
  const FadeUpTolerance: real := 0.05

  predicate InUnit(x: real) { 0.0 <= x <= 1.0 }

  /** C conversion of a floating value to `int`: truncation toward zero. */
  function Trunc(x: real): (r: int)
    ensures 0.0 <= x ==> 0 <= r && r as real <= x < r as real + 1.0
    ensures x < 0.0 ==> r <= 0 && r as real - 1.0 < x <= r as real
  {
    if x >= 0.0 then x.Floor else -((-x).Floor)
  }

  /**
   * Dead-zone and rescale one analog reading: readings within `tolerance`
   * of either end snap to that end, the band in between is stretched onto
   * [0, 1].
   */
  function FadeCalc(ain: real, tolerance: real): (pos: real)
    requires 0.0 < tolerance < 0.5
    ensures InUnit(pos)
    ensures ain <= tolerance ==> pos == 0.0
    ensures ain >= 1.0 - tolerance ==> pos == 1.0
  {
    if ain < tolerance then 0.0
    else if ain > 1.0 - tolerance then 1.0
    else
      var d := 1.0 - 2.0 * tolerance;
      DivMonotone(0.0, ain - tolerance, d);
      DivMonotone(ain - tolerance, d, d);
      (ain - tolerance) / d
  }

  /** Inside the live band the rescaling is undone by the affine map back. */
  lemma FadeCalcLinearBand(ain: real, tolerance: real)
    requires 0.0 < tolerance < 0.5
    requires tolerance <= ain <= 1.0 - tolerance
    ensures ain == tolerance + FadeCalc(ain, tolerance) * (1.0 - 2.0 * tolerance)
  {
    var d := 1.0 - 2.0 * tolerance;
    if ain < 1.0 - tolerance {
      assert FadeCalc(ain, tolerance) * d == ((ain - tolerance) / d) * d;
    }
  }

  /** Moving a fader further never moves the normalised value back. */
  lemma FadeCalcMonotone(a: real, b: real, tolerance: real)
    requires 0.0 < tolerance < 0.5
    requires a <= b
    ensures FadeCalc(a, tolerance) <= FadeCalc(b, tolerance)
  {
    var d := 1.0 - 2.0 * tolerance;
    if tolerance <= a && b <= 1.0 - tolerance {
      DivMonotone(a - tolerance, b - tolerance, d);
    } else if tolerance <= a <= 1.0 - tolerance {
      DivMonotone(a - tolerance, d, d);
    } else if tolerance <= b <= 1.0 - tolerance {
      DivMonotone(0.0, b - tolerance, d);
    }
  }

  lemma DivMonotone(x: real, y: real, d: real)
    requires x <= y && d > 0.0
    ensures x / d <= y / d
  {
    assert y / d - x / d == (y - x) / d;
  }

  /** Crossfade position and the remembered first-pressed tap after a read of the controls. */
  datatype TapResult = TapResult(xFade: real, leftWasFirstPressed: bool)

  /**
   * While a tap button is held it overrides the crossfader: one button takes
   * the crossfade to its own side and is remembered as first pressed; with
   * both held the crossfade goes to the side pressed second. With no tap the
   * crossfade follows the normalised fader, inverted.
   */
  function TapXFade(tapLeft: bool, tapRight: bool, leftWasFirstPressed: bool, xFadeAIN: real): (r: TapResult)
    ensures InUnit(r.xFade)
    ensures r.leftWasFirstPressed == (if tapLeft != tapRight then tapLeft else leftWasFirstPressed)
    ensures tapLeft && !tapRight ==> r.xFade == 0.0
    ensures !tapLeft && tapRight ==> r.xFade == 1.0
    ensures tapLeft && tapRight ==> r.xFade == (if leftWasFirstPressed then 1.0 else 0.0)
    ensures !tapLeft && !tapRight ==> r.xFade == 1.0 - FadeCalc(xFadeAIN, XFadeTolerance)
  {
    if tapLeft || tapRight then
      if tapLeft && tapRight then TapResult(if leftWasFirstPressed then 1.0 else 0.0, leftWasFirstPressed)
      else if tapLeft then TapResult(0.0, true)
      else TapResult(1.0, false)
    else TapResult(1.0 - FadeCalc(xFadeAIN, XFadeTolerance), leftWasFirstPressed)
  }

  /** A held tap makes the crossfader reading irrelevant. */
  lemma TapOverridesFader(tapLeft: bool, tapRight: bool, first: bool, ain1: real, ain2: real)
    requires tapLeft || tapRight
    ensures TapXFade(tapLeft, tapRight, first, ain1) == TapXFade(tapLeft, tapRight, first, ain2)
    ensures TapXFade(tapLeft, tapRight, first, ain1).xFade in {0.0, 1.0}
  {
  }

  /**
   * Pressing one tap and then the other while still holding the first cuts
   * to the side pressed second: left then both gives the right side (1), and
   * right then both gives the left side (0).
   */
  lemma TapSecondPressWins(first: bool, ain1: real, ain2: real)
    ensures TapXFade(true, true, TapXFade(true, false, first, ain1).leftWasFirstPressed, ain2).xFade == 1.0
    ensures TapXFade(true, true, TapXFade(false, true, first, ain1).leftWasFirstPressed, ain2).xFade == 0.0
  {
  }

  /** The fade-up fader is never overridden: it is always the inverted normalised reading. */
  function FadeUpFrom(fadeUpAIN: real): (u: real)
    ensures InUnit(u)
    ensures fadeUpAIN <= FadeUpTolerance ==> u == 1.0
    ensures fadeUpAIN >= 1.0 - FadeUpTolerance ==> u == 0.0
  {
    1.0 - FadeCalc(fadeUpAIN, FadeUpTolerance)
  }

  function Min1(x: real): real { if x > 1.0 then 1.0 else x }

  /** The fade level fractions (0 = hidden, 1 = full) of windows A and B. */
  datatype Levels = Levels(a: real, b: real)

  /** The resolved levels as the whole-number percentages sent to the processor. */
  datatype Percents = Percents(a: int, b: int)

  /**
   * The Blend divisor is non-zero: the precondition C needs for the level
   * of B to be defined (a zero divisor gives an infinite float, whose
   * conversion to int is undefined).
   */
  predicate LevelsDefined(mixMode: int, xFade: real, fadeUp: real)
  {
    mixMode == MixBlend && xFade > 0.0 ==> 1.0 - fadeUp + xFade * fadeUp != 0.0
  }

  /**
   * Blend: window A occludes B, so B is raised by what A lets through.
   * Additive: both windows scaled up by the fade curve and capped at 1.
   * Keyer modes (and any other mode from MixKeyStartIndex up): A follows
   * the crossfade, B stays at fade-up. Anything else leaves both at 0.
   */
  function MixLevels(mixMode: int, xFade: real, fadeUp: real, fadeCurve: real): (l: Levels)
    requires LevelsDefined(mixMode, xFade, fadeUp)
    ensures mixMode == MixBlend ==> l.a + (1.0 - l.a) * l.b == fadeUp
    ensures mixMode >= MixKeyStartIndex && mixMode != MixAdditive ==> l.b == fadeUp
    ensures mixMode < MixBlend ==> l == Levels(0.0, 0.0)
  {
    if mixMode == MixBlend then
      if xFade > 0.0 then
        var d := 1.0 - fadeUp + xFade * fadeUp;
        assert d * ((xFade * fadeUp) / d) == xFade * fadeUp;
        Levels((1.0 - xFade) * fadeUp, (xFade * fadeUp) / d)
      else Levels(fadeUp, 0.0)
    else if mixMode == MixAdditive then
      Levels(Min1((1.0 - xFade) * (1.0 + fadeCurve)) * fadeUp, Min1(xFade * (1.0 + fadeCurve)) * fadeUp)
    else if mixMode >= MixKeyStartIndex then
      Levels((1.0 - xFade) * fadeUp, fadeUp)
    else
      Levels(0.0, 0.0)
  }

  /** The percentages the control loop computes: each level times 100, truncated. */
  function ResolvePercents(mixMode: int, xFade: real, fadeUp: real, fadeCurve: real): (p: Percents)
    requires LevelsDefined(mixMode, xFade, fadeUp)
    ensures var l := MixLevels(mixMode, xFade, fadeUp, fadeCurve);
      p.a as real <= l.a * 100.0 < p.a as real + 1.0 || l.a < 0.0
    ensures var l := MixLevels(mixMode, xFade, fadeUp, fadeCurve);
      p.b as real <= l.b * 100.0 < p.b as real + 1.0 || l.b < 0.0
  {
    var l := MixLevels(mixMode, xFade, fadeUp, fadeCurve);
    Percents(Trunc(l.a * 100.0), Trunc(l.b * 100.0))
  }

  /** With fader-range inputs the Blend divisor is positive: it is at least xFade. */
  lemma BlendDivisorPositive(xFade: real, fadeUp: real)
    requires 0.0 < xFade <= 1.0 && InUnit(fadeUp)
    ensures 1.0 - fadeUp + xFade * fadeUp >= xFade
    ensures LevelsDefined(MixBlend, xFade, fadeUp)
  {
    assert 1.0 - fadeUp + xFade * fadeUp - xFade == (1.0 - fadeUp) * (1.0 - xFade);
    MulNonNegative(1.0 - fadeUp, 1.0 - xFade);
  }

  lemma MulNonNegative(x: real, y: real)
    requires 0.0 <= x && 0.0 <= y
    ensures 0.0 <= x * y
  {
  }

  lemma ProductInUnit(x: real, y: real)
    requires InUnit(x) && InUnit(y)
    ensures InUnit(x * y) && x * y <= x && x * y <= y
  {
  }

  /** Fader-range inputs always give levels in [0, 1]. */
  lemma LevelsInUnit(mixMode: int, xFade: real, fadeUp: real, fadeCurve: real)
    requires InUnit(xFade) && InUnit(fadeUp) && InUnit(fadeCurve)
    ensures LevelsDefined(mixMode, xFade, fadeUp)
    ensures InUnit(MixLevels(mixMode, xFade, fadeUp, fadeCurve).a)
    ensures InUnit(MixLevels(mixMode, xFade, fadeUp, fadeCurve).b)
  {
    if mixMode == MixBlend {
      BlendLevelsInUnit(xFade, fadeUp, fadeCurve);
    } else if mixMode == MixAdditive {
      AdditiveLevelsInUnit(xFade, fadeUp, fadeCurve);
    } else if mixMode >= MixKeyStartIndex {
      KeyLevelsInUnit(mixMode, xFade, fadeUp, fadeCurve);
    }
  }

  lemma BlendLevelsInUnit(xFade: real, fadeUp: real, fadeCurve: real)
    requires InUnit(xFade) && InUnit(fadeUp)
    ensures LevelsDefined(MixBlend, xFade, fadeUp)
    ensures InUnit(MixLevels(MixBlend, xFade, fadeUp, fadeCurve).a)
    ensures InUnit(MixLevels(MixBlend, xFade, fadeUp, fadeCurve).b)
  {
    if xFade > 0.0 {
      BlendBInUnit(xFade, fadeUp);
      ProductInUnit(1.0 - xFade, fadeUp);
    }
  }

  lemma AdditiveLevelsInUnit(xFade: real, fadeUp: real, fadeCurve: real)
    requires InUnit(xFade) && InUnit(fadeUp) && InUnit(fadeCurve)
    ensures InUnit(MixLevels(MixAdditive, xFade, fadeUp, fadeCurve).a)
    ensures InUnit(MixLevels(MixAdditive, xFade, fadeUp, fadeCurve).b)
  {
    CappedInUnit(1.0 - xFade, fadeCurve, fadeUp);
    CappedInUnit(xFade, fadeCurve, fadeUp);
  }

  lemma KeyLevelsInUnit(mixMode: int, xFade: real, fadeUp: real, fadeCurve: real)
    requires mixMode >= MixKeyStartIndex && mixMode != MixAdditive
    requires InUnit(xFade) && InUnit(fadeUp)
    ensures InUnit(MixLevels(mixMode, xFade, fadeUp, fadeCurve).a)
    ensures InUnit(MixLevels(mixMode, xFade, fadeUp, fadeCurve).b)
  {
    ProductInUnit(1.0 - xFade, fadeUp);
  }

  lemma BlendBInUnit(xFade: real, fadeUp: real)
    requires 0.0 < xFade <= 1.0 && InUnit(fadeUp)
    ensures 1.0 - fadeUp + xFade * fadeUp > 0.0
    ensures InUnit((xFade * fadeUp) / (1.0 - fadeUp + xFade * fadeUp))
  {
    BlendDivisorPositive(xFade, fadeUp);
    var n := xFade * fadeUp;
    var d := 1.0 - fadeUp + xFade * fadeUp;
    ProductInUnit(xFade, fadeUp);
    DivMonotone(n, d, d);
    DivMonotone(0.0, n, d);
  }

  lemma CappedInUnit(x: real, fadeCurve: real, fadeUp: real)
    requires InUnit(x) && InUnit(fadeCurve) && InUnit(fadeUp)
    ensures InUnit(Min1(x * (1.0 + fadeCurve)) * fadeUp)
  {
    MulNonNegative(x, 1.0 + fadeCurve);
    ProductInUnit(Min1(x * (1.0 + fadeCurve)), fadeUp);
  }

  /** Fader-range inputs always give percentages in [0, 100]. */
  lemma PercentsInRange(mixMode: int, xFade: real, fadeUp: real, fadeCurve: real)
    requires InUnit(xFade) && InUnit(fadeUp) && InUnit(fadeCurve)
    ensures LevelsDefined(mixMode, xFade, fadeUp)
    ensures 0 <= ResolvePercents(mixMode, xFade, fadeUp, fadeCurve).a <= 100
    ensures 0 <= ResolvePercents(mixMode, xFade, fadeUp, fadeCurve).b <= 100
  {
    LevelsInUnit(mixMode, xFade, fadeUp, fadeCurve);
  }

  /**
   * The Blend rule is exact occlusion compositing: A shows (1 - xFade) of the
   * picture at fade-up, and what A lets through of B is xFade of it, so the
   * two always add up to the fade-up level.
   */
  lemma BlendComposites(xFade: real, fadeUp: real)
    requires 0.0 < xFade <= 1.0 && InUnit(fadeUp)
    ensures LevelsDefined(MixBlend, xFade, fadeUp)
    ensures var l := MixLevels(MixBlend, xFade, fadeUp, 0.0);
      (1.0 - l.a) * l.b == xFade * fadeUp && l.a + (1.0 - l.a) * l.b == fadeUp
  {
    BlendDivisorPositive(xFade, fadeUp);
    var l := MixLevels(MixBlend, xFade, fadeUp, 0.0);
    var d := 1.0 - fadeUp + xFade * fadeUp;
    assert 1.0 - l.a == d;
    assert d * ((xFade * fadeUp) / d) == xFade * fadeUp;
  }

  /** At the ends of the crossfader Blend shows exactly one window, at fade-up. */
  lemma BlendEnds(fadeUp: real, fadeCurve: real)
    requires InUnit(fadeUp)
    ensures LevelsDefined(MixBlend, 1.0, fadeUp)
    ensures MixLevels(MixBlend, 0.0, fadeUp, fadeCurve) == Levels(fadeUp, 0.0)
    ensures MixLevels(MixBlend, 1.0, fadeUp, fadeCurve) == Levels(0.0, 1.0 * fadeUp)
  {
    BlendDivisorPositive(1.0, fadeUp);
    assert (1.0 * fadeUp) / (1.0 - fadeUp + 1.0 * fadeUp) == fadeUp;
  }

  /** Additive treats the two sides alike: mirroring the crossfade swaps A and B. */
  lemma AdditiveSymmetric(xFade: real, fadeUp: real, fadeCurve: real)
    ensures MixLevels(MixAdditive, xFade, fadeUp, fadeCurve).a == MixLevels(MixAdditive, 1.0 - xFade, fadeUp, fadeCurve).b
    ensures MixLevels(MixAdditive, xFade, fadeUp, fadeCurve).b == MixLevels(MixAdditive, 1.0 - xFade, fadeUp, fadeCurve).a
  {
  }

  /** With the curve at its maximum, the middle of the crossfader shows both windows fully. */
  lemma AdditiveFullCurveMiddle(fadeUp: real)
    ensures MixLevels(MixAdditive, 0.5, fadeUp, 1.0) == Levels(fadeUp, fadeUp)
  {
  }

  /** In a keyer mode B is the keyed background at fade-up and A never exceeds it. */
  lemma KeyerBackgroundHolds(mixMode: int, xFade: real, fadeUp: real, fadeCurve: real)
    requires mixMode >= MixKey && InUnit(xFade) && InUnit(fadeUp)
    ensures MixLevels(mixMode, xFade, fadeUp, fadeCurve).b == fadeUp
    ensures MixLevels(mixMode, xFade, fadeUp, fadeCurve).a <= fadeUp
  {
    ProductInUnit(1.0 - xFade, fadeUp);
  }

  /**
   * The anti-flutter test: a window's new percentage counts as a change when
   * it differs from the current one, except when it is a one-step return to
   * the value that was current before the last change.
   */
  function FadeChanged(previous: int, current: int, proposed: int): (changed: bool)
    ensures changed ==> proposed != current
    ensures !changed && proposed != current ==> proposed == previous && (proposed - current == 1 || current - proposed == 1)
  {
    if previous == proposed && (proposed == current - 1 || proposed == current + 1) then false
    else proposed != current
  }

  /** A move of two or more steps is always sent. */
  lemma LargeMoveChanges(previous: int, current: int, proposed: int)
    requires proposed - current >= 2 || current - proposed >= 2
    ensures FadeChanged(previous, current, proposed)
  {
  }

  /**
   * The flutter being suppressed: after a one-step change from p to q, a
   * reading back at p is ignored, while continuing one more step in the same
   * direction is sent.
   */
  lemma FlutterSuppressed(p: int, q: int)
    requires q - p == 1 || p - q == 1
    ensures !FadeChanged(p, q, p)
    ensures FadeChanged(p, q, q + (q - p))
  {
  }
}
