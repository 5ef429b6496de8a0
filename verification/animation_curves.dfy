/** The value curves of the six beat-reactive animation presets. Each
    frame computes a progress in [0, 1) from the time elapsed since the
    animation started and maps it to the animated quantity: a scale
    factor, an opacity, a rotation in degrees or a translation in pixels.
    `Math.sin` is a parameter: any function bounded by [-1, 1]. */
module AnimationCurves {
  import opened Numeric

  datatype Preset = Pulse | Scale | Glow | Rotation | Bounce | Shimmer

  /** A positive animation length in milliseconds. */
  type Duration = d: int | d > 0 witness 1

  /** What the curves rely on about `Math.sin`: its values lie in [-1, 1]. */
  type Sine = f: real -> real | forall x: real :: -1.0 <= f(x) <= 1.0 witness (x: real) => 0.0

  /** `Math.PI` */
  const Pi: real := 3.141592653589793

  /** `(elapsed % duration) / duration` */
  function Progress(elapsed: int, duration: Duration): (p: real)
    ensures elapsed >= 0 ==> 0.0 <= p < 1.0
  {
    var r := JsRem(elapsed, duration);
    FractionBelowOne(r as real, duration as real);
    r as real / duration as real
  }

  lemma FractionBelowOne(a: real, b: real)
    requires b > 0.0
    ensures (a / b) * b == a
    ensures 0.0 <= a < b ==> 0.0 <= a / b < 1.0
  {
    if 0.0 <= a < b && a / b >= 1.0 {
      MulMono(b, 1.0, a / b);
      assert false;
    }
  }

  /** During the first period the progress is the elapsed fraction of the
      duration. */
  lemma ProgressFirstPeriod(elapsed: int, duration: Duration)
    requires 0 <= elapsed < duration
    ensures Progress(elapsed, duration) * duration as real == elapsed as real
  {
    ModUnique(elapsed, duration, 0, elapsed);
    FractionBelowOne(elapsed as real, duration as real);
  }

  /** A whole number of periods later the progress repeats. */
  lemma ProgressPeriodic(elapsed: nat, duration: Duration, k: nat)
    ensures Progress(elapsed + k * duration, duration) == Progress(elapsed, duration)
  {
    var q, r := elapsed / duration, elapsed % duration;
    assert elapsed + k * duration == (q + k) * duration + r;
    ModUnique(elapsed + k * duration, duration, q + k, r);
  }

  // ---------------------------------------------------------------------
  // Easing functions

  /** Ease-in-out cubic of the scale preset. */
  function CubicEase(p: real): real {
    if p < 0.5 then 4.0 * p * p * p else 1.0 - Pow(-2.0 * p + 2.0, 3) / 2.0
  }

  /** The cubic ease maps [0, 1] into [0, 1], fixes both ends, and its two
      pieces meet at one half. */
  lemma CubicEaseBounds(p: real)
    requires 0.0 <= p <= 1.0
    ensures 0.0 <= CubicEase(p) <= 1.0
    ensures CubicEase(0.0) == 0.0 && CubicEase(1.0) == 1.0
    ensures CubicEase(0.5) == 0.5 && 4.0 * 0.5 * 0.5 * 0.5 == 0.5
  {
    assert Pow(0.0, 3) == 0.0;
    assert Pow(1.0, 3) == 1.0;
    if p < 0.5 {
      SquareBound(p, 0.5);
      var sq := p * p;
      assert 0.0 <= sq <= 0.25;
      MulMono(p, sq, 0.25);
      MulNonneg(p, sq);
      assert 4.0 * p * p * p == 4.0 * (p * sq);
    } else {
      PowBounds(-2.0 * p + 2.0, 3);
    }
  }

  const N1: real := 7.5625
  const D1: real := 2.75

  /** `easeOutBounce` of the bounce preset: four parabolic arcs. */
  function EaseOutBounce(t: real): real {
    if t < 1.0 / D1 then N1 * t * t
    else if t < 2.0 / D1 then
      var u := t - 1.5 / D1;
      N1 * u * u + 0.75
    else if t < 2.5 / D1 then
      var u := t - 2.25 / D1;
      N1 * u * u + 0.9375
    else
      var u := t - 2.625 / D1;
      N1 * u * u + 0.984375
  }

  /** `-m <= u <= m` bounds `u * u` by `m * m`. */
  lemma SquareBound(u: real, m: real)
    requires -m <= u <= m
    ensures 0.0 <= u * u <= m * m
  {
    MulNonneg(m - u, m + u);
    assert (m - u) * (m + u) == m * m - u * u;
    if u >= 0.0 { MulNonneg(u, u); } else { MulNonneg(-u, -u); }
  }

  /** Each arc stays within [0, 1] on [0, 1], starting at 0 and landing at 1. */
  lemma EaseOutBounceBounds(t: real)
    requires 0.0 <= t <= 1.0
    ensures 0.0 <= EaseOutBounce(t) <= 1.0
    ensures EaseOutBounce(0.0) == 0.0 && EaseOutBounce(1.0) == 1.0
  {
    var u1 := 1.0 - 2.625 / D1;
    assert u1 == 1.0 / 22.0;
    assert EaseOutBounce(1.0) == N1 * u1 * u1 + 0.984375;
    if t < 1.0 / D1 {
      SquareBound(t, 4.0 / 11.0);
      assert N1 * t * t == N1 * (t * t);
    } else if t < 2.0 / D1 {
      var u := t - 1.5 / D1;
      SquareBound(u, 2.0 / 11.0);
      assert N1 * u * u == N1 * (u * u);
    } else if t < 2.5 / D1 {
      var u := t - 2.25 / D1;
      SquareBound(u, 1.0 / 11.0);
      assert N1 * u * u == N1 * (u * u);
    } else {
      var u := t - 2.625 / D1;
      SquareBound(u, 1.0 / 22.0);
      assert N1 * u * u == N1 * (u * u);
    }
  }

  // ---------------------------------------------------------------------
  // Preset values

  /** Scale `1 + intensity * sin(progress * PI)`. */
  function PulseValue(intensity: real, p: real, sin: Sine): real {
    var maxScale := 1.0 + intensity;
    1.0 + (maxScale - 1.0) * sin(p * Pi)
  }

  /** Scale from `1 - intensity` to `1 + intensity` along the cubic ease. */
  function ScaleValue(intensity: real, p: real): real {
    var minScale := 1.0 - intensity;
    var maxScale := 1.0 + intensity;
    minScale + (maxScale - minScale) * CubicEase(p)
  }

  /** Glow from 0.3 to `0.3 + intensity` along a full sine period. */
  function GlowValue(intensity: real, p: real, sin: Sine): real {
    var maxGlow := 0.3 + intensity;
    0.3 + (maxGlow - 0.3) * (sin(p * Pi * 2.0) * 0.5 + 0.5)
  }

  /** `360 * intensity * progress` degrees. */
  function RotationValue(intensity: real, p: real): real {
    360.0 * intensity * p
  }

  /** Translation `20 * intensity * easeOutBounce(min(1, progress))`. */
  function BounceValue(intensity: real, p: real): real {
    20.0 * intensity * EaseOutBounce(Min(1.0, p))
  }

  /** Opacity from 0.5 up to `0.5 + intensity`: two sines, clamped to [0, 1]. */
  function ShimmerValue(intensity: real, p: real, sin: Sine): real {
    var maxOpacity := 0.5 + intensity;
    var ease := 0.5 + sin(p * Pi * 2.0) * 0.3 + sin(p * Pi * 4.0) * 0.2;
    0.5 + (maxOpacity - 0.5) * Max(0.0, Min(1.0, ease))
  }

  /** The value a preset's frame reports at progress `p`. */
  function Value(preset: Preset, intensity: real, p: real, sin: Sine): real {
    match preset
    case Pulse => PulseValue(intensity, p, sin)
    case Scale => ScaleValue(intensity, p)
    case Glow => GlowValue(intensity, p, sin)
    case Rotation => RotationValue(intensity, p)
    case Bounce => BounceValue(intensity, p)
    case Shimmer => ShimmerValue(intensity, p, sin)
  }

  /** The range each preset's value keeps to. */
  function Lower(preset: Preset, intensity: real): real {
    match preset
    case Pulse => 1.0 - intensity
    case Scale => 1.0 - intensity
    case Glow => 0.3
    case Rotation => 0.0
    case Bounce => 0.0
    case Shimmer => 0.5
  }

  function Upper(preset: Preset, intensity: real): real {
    match preset
    case Pulse => 1.0 + intensity
    case Scale => 1.0 + intensity
    case Glow => 0.3 + intensity
    case Rotation => 360.0 * intensity
    case Bounce => 20.0 * intensity
    case Shimmer => 0.5 + intensity
  }

  lemma PulseBounds(intensity: real, p: real, sin: Sine)
    requires intensity >= 0.0
    ensures 1.0 - intensity <= PulseValue(intensity, p, sin) <= 1.0 + intensity
  {
    var s := sin(p * Pi);
    ScaledUnit(intensity, s);
    assert PulseValue(intensity, p, sin) == 1.0 + intensity * s;
  }

  lemma ScaleBounds(intensity: real, p: real)
    requires intensity >= 0.0 && 0.0 <= p <= 1.0
    ensures 1.0 - intensity <= ScaleValue(intensity, p) <= 1.0 + intensity
  {
    CubicEaseBounds(p);
    var e := CubicEase(p);
    MulBounds01(2.0 * intensity, e);
    assert ScaleValue(intensity, p) == 1.0 - intensity + (2.0 * intensity) * e;
  }

  lemma GlowBounds(intensity: real, p: real, sin: Sine)
    requires intensity >= 0.0
    ensures 0.3 <= GlowValue(intensity, p, sin) <= 0.3 + intensity
  {
    var e := sin(p * Pi * 2.0) * 0.5 + 0.5;
    MulBounds01(intensity, e);
    assert GlowValue(intensity, p, sin) == 0.3 + intensity * e;
  }

  lemma BounceBounds(intensity: real, p: real)
    requires intensity >= 0.0 && 0.0 <= p
    ensures 0.0 <= BounceValue(intensity, p) <= 20.0 * intensity
  {
    var e := EaseOutBounce(Min(1.0, p));
    EaseOutBounceBounds(Min(1.0, p));
    MulBounds01(20.0 * intensity, e);
    assert BounceValue(intensity, p) == (20.0 * intensity) * e;
  }

  lemma ShimmerBounds(intensity: real, p: real, sin: Sine)
    requires intensity >= 0.0
    ensures 0.5 <= ShimmerValue(intensity, p, sin) <= 0.5 + intensity
  {
    var ease := 0.5 + sin(p * Pi * 2.0) * 0.3 + sin(p * Pi * 4.0) * 0.2;
    var c := Max(0.0, Min(1.0, ease));
    MulBounds01(intensity, c);
    assert ShimmerValue(intensity, p, sin) == 0.5 + intensity * c;
  }

  /** For a non-negative intensity and progress in [0, 1) every preset's
      value lies in its range. */
  lemma ValueWithinBounds(preset: Preset, intensity: real, p: real, sin: Sine)
    requires intensity >= 0.0 && 0.0 <= p < 1.0
    ensures Lower(preset, intensity) <= Value(preset, intensity, p, sin) <= Upper(preset, intensity)
  {
    match preset
    case Pulse => PulseBounds(intensity, p, sin);
    case Scale => ScaleBounds(intensity, p);
    case Glow => GlowBounds(intensity, p, sin);
    case Rotation => MulBounds01(360.0 * intensity, p);
    case Bounce => BounceBounds(intensity, p);
    case Shimmer => ShimmerBounds(intensity, p, sin);
  }

  /** A rotating element never reaches a full `360 * intensity` turn. */
  lemma RotationBelowFullTurn(intensity: real, p: real)
    requires intensity > 0.0 && 0.0 <= p < 1.0
    ensures 0.0 <= RotationValue(intensity, p) < 360.0 * intensity
  {
    var a := 360.0 * intensity;
    MulNonneg(a, p);
    MulPos(a, 1.0 - p);
    assert a * (1.0 - p) == a - a * p;
  }

  /** `c * x` for `x` in [0, 1] lies in [0, c]. */
  lemma MulBounds01(c: real, x: real)
    requires 0.0 <= c && 0.0 <= x <= 1.0
    ensures 0.0 <= c * x <= c
  {
    MulNonneg(c, x);
    MulMono(c, x, 1.0);
  }

  /** `c * s` for `s` in [-1, 1] lies in [-c, c]. */
  lemma ScaledUnit(c: real, s: real)
    requires 0.0 <= c && -1.0 <= s <= 1.0
    ensures -c <= c * s <= c
  {
    MulMono(c, s, 1.0);
    MulMono(c, -1.0, s);
  }
}
