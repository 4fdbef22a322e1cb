/**
 * The palette and blending part of the Plasma fragment shader (components/ui/Plasma.tsx),
 * on reals: `samplePaletteLinear`, `samplePaletteSmooth` and the final colour and alpha of
 * `main`. GLSL's clamp, floor, fract, mix, step and smoothstep are written out.
 */
module PlasmaShader {
  import opened PlasmaColor
  import PlasmaConfig
  import opened RealArith

  // ----- GLSL built-ins -----

  /** `clamp(x, lo, hi)`, that is `min(max(x, lo), hi)`. */
  function Clamp(x: real, lo: real, hi: real): (y: real)
    requires lo <= hi
    ensures lo <= y <= hi
    ensures lo <= x <= hi ==> y == x
    ensures x <= lo ==> y == lo
    ensures x >= hi ==> y == hi
  {
    if x < lo then lo else if x > hi then hi else x
  }

  /** `clamp` on integers. */
  function ClampInt(x: int, lo: int, hi: int): (y: int)
    requires lo <= hi
    ensures lo <= y <= hi
    ensures lo <= x <= hi ==> y == x
  {
    if x < lo then lo else if x > hi then hi else x
  }

  /** `fract(x) = x - floor(x)`. */
  function Fract(x: real): (f: real)
    ensures 0.0 <= f < 1.0
    ensures (x - f).Floor as real == x - f
  {
    x - x.Floor as real
  }

  /** The smoothstep polynomial `f * f * (3 - 2 f)`. */
  function Ease(f: real): real {
    f * f * (3.0 - 2.0 * f)
  }

  /** The eased weight stays in [0, 1] and fixes both ends. */
  lemma EaseRange(f: real)
    requires 0.0 <= f <= 1.0
    ensures 0.0 <= Ease(f) <= 1.0
    ensures f == 0.0 ==> Ease(f) == 0.0
    ensures f == 1.0 ==> Ease(f) == 1.0
  {
    MulNonneg(f, f);
    MulNonneg(f * f, 3.0 - 2.0 * f);
    MulNonneg(1.0 - f, 1.0 - f);
    MulNonneg((1.0 - f) * (1.0 - f), 1.0 + 2.0 * f);
    assert 1.0 - Ease(f) == (1.0 - f) * (1.0 - f) * (1.0 + 2.0 * f);
  }

  lemma EaseDifference(f: real, g: real)
    ensures Ease(g) - Ease(f) == (g - f) * (3.0 * (g + f) - 2.0 * (g * g + g * f + f * f))
  {
  }

  lemma EaseSlopeFactor(f: real, g: real)
    requires 0.0 <= f <= g <= 1.0
    ensures 3.0 * (g + f) - 2.0 * (g * g + g * f + f * f) >= 0.0
  {
    var gg, gf, ff := g * g, g * f, f * f;
    ProductAtMost(g, g, gg);
    ProductAtMost(f, f, ff);
    ProductAtMost(f, g, gf);
    assert 3.0 * (g + f) - 2.0 * (gg + gf + ff) >= 0.0;
  }

  /** The eased weight is monotone on [0, 1]. */
  lemma EaseMonotone(f: real, g: real)
    requires 0.0 <= f <= g <= 1.0
    ensures Ease(f) <= Ease(g)
  {
    EaseDifference(f, g);
    EaseSlopeFactor(f, g);
    MulNonneg(g - f, 3.0 * (g + f) - 2.0 * (g * g + g * f + f * f));
  }

  /** `mix(a, b, t) = a (1 - t) + b t` on scalars. */
  function MixReal(a: real, b: real, t: real): real {
    a * (1.0 - t) + b * t
  }

  predicate BetweenReal(x: real, a: real, b: real) {
    (a <= x <= b) || (b <= x <= a)
  }

  lemma MixRealForm(a: real, b: real, t: real)
    ensures MixReal(a, b, t) == a + (b - a) * t
  {
  }

  lemma MixRealBetween(a: real, b: real, t: real)
    requires 0.0 <= t <= 1.0
    ensures BetweenReal(MixReal(a, b, t), a, b)
    ensures t == 0.0 ==> MixReal(a, b, t) == a
    ensures t == 1.0 ==> MixReal(a, b, t) == b
  {
    var y := (b - a) * t;
    MixRealForm(a, b, t);
    assert MixReal(a, b, t) == a + y;
    if a <= b {
      ProductAtMost(b - a, t, y);
    } else {
      var z := (a - b) * t;
      ProductAtMost(a - b, t, z);
      assert z == -y;
    }
  }

  /** `mix` on colours, channel by channel. */
  function Mix(a: Rgb, b: Rgb, t: real): Rgb {
    Rgb(MixReal(a.r, b.r, t), MixReal(a.g, b.g, t), MixReal(a.b, b.b, t))
  }

  predicate Between(c: Rgb, a: Rgb, b: Rgb) {
    BetweenReal(c.r, a.r, b.r) && BetweenReal(c.g, a.g, b.g) && BetweenReal(c.b, a.b, b.b)
  }

  lemma MixBetween(a: Rgb, b: Rgb, t: real)
    requires 0.0 <= t <= 1.0
    ensures Between(Mix(a, b, t), a, b)
    ensures t == 0.0 ==> Mix(a, b, t) == a
    ensures t == 1.0 ==> Mix(a, b, t) == b
  {
    MixRealBetween(a.r, b.r, t);
    MixRealBetween(a.g, b.g, t);
    MixRealBetween(a.b, b.b, t);
  }

  // ----- samplePaletteLinear -----

  /** `max(uPCount, 2)`. */
  function StopCount(pCount: int): (count: int)
    ensures count >= 2
    ensures pCount >= 2 ==> count == pCount
  {
    if pCount < 2 then 2 else pCount
  }

  /** `clamp(t, 0, 1) * (count - 1)`: the position of t along the stops. */
  function SegmentPosition(count: int, t: real): (s: real)
    requires count >= 2
    ensures 0.0 <= s <= (count - 1) as real
  {
    var c := Clamp(t, 0.0, 1.0);
    assert 0.0 <= c * (count - 1) as real <= (count - 1) as real;
    c * (count - 1) as real
  }

  /**
   * `clamp(int(floor(segF)), 0, count - 2)`: the segment whose left stop is used. It is
   * always a valid left stop, and it is the segment that contains segF except at the very end.
   */
  function SegmentIndex(count: int, t: real): (idx: int)
    requires count >= 2
    ensures 0 <= idx <= count - 2
    ensures idx as real <= SegmentPosition(count, t)
    ensures SegmentPosition(count, t) < (count - 1) as real ==>
              idx == SegmentPosition(count, t).Floor && SegmentPosition(count, t) < (idx + 1) as real
  {
    ClampInt(SegmentPosition(count, t).Floor, 0, count - 2)
  }

  /**
   * `samplePaletteLinear(t)` over the six stop uniforms: the result lies, channel by channel,
   * between the two stops of segment `SegmentIndex`.
   */
  function SampleLinear(P: seq<Rgb>, pCount: int, t: real): (c: Rgb)
    requires |P| == 6 && pCount <= 6
    ensures var idx := SegmentIndex(StopCount(pCount), t);
      Between(c, P[idx], P[idx + 1])
  {
    var count := StopCount(pCount);
    var idx := SegmentIndex(count, t);
    var f := Fract(SegmentPosition(count, t));
    EaseRange(f);
    MixBetween(P[idx], P[idx + 1], Ease(f));
    Mix(P[idx], P[idx + 1], Ease(f))
  }

  /** At a stop boundary k / (count - 1), k below the last stop, the sample is exactly stop k. */
  lemma SampleLinearAtStop(P: seq<Rgb>, pCount: int, k: int)
    requires |P| == 6 && pCount <= 6
    requires 0 <= k <= StopCount(pCount) - 2
    ensures SampleLinear(P, pCount, k as real / (StopCount(pCount) - 1) as real) == P[k]
  {
    var count := StopCount(pCount);
    var n := (count - 1) as real;
    var t := k as real / n;
    assert t * n == k as real;
    assert 0.0 <= t < 1.0 by {
      assert k as real < n;
    }
    assert SegmentPosition(count, t) == k as real;
    assert (k as real).Floor == k;
    assert SegmentIndex(count, t) == k;
    assert Fract(k as real) == 0.0;
    EaseRange(0.0);
    MixBetween(P[k], P[k + 1], 0.0);
  }

  /**
   * The quirk at the top end: for t >= 1, fract(count - 1) is 0 while the index is clamped
   * to count - 2, so the sample is the second-to-last stop, not the last one.
   */
  lemma SampleLinearAtOrAboveOne(P: seq<Rgb>, pCount: int, t: real)
    requires |P| == 6 && pCount <= 6
    requires t >= 1.0
    ensures SampleLinear(P, pCount, t) == P[StopCount(pCount) - 2]
  {
    var count := StopCount(pCount);
    assert SegmentPosition(count, t) == (count - 1) as real;
    assert ((count - 1) as real).Floor == count - 1;
    assert Fract((count - 1) as real) == 0.0;
    EaseRange(0.0);
    MixBetween(P[count - 2], P[count - 1], 0.0);
  }

  /** For t <= 0 the sample is the first stop. */
  lemma SampleLinearAtOrBelowZero(P: seq<Rgb>, pCount: int, t: real)
    requires |P| == 6 && pCount <= 6
    requires t <= 0.0
    ensures SampleLinear(P, pCount, t) == P[0]
  {
    var count := StopCount(pCount);
    assert SegmentPosition(count, t) == 0.0;
    assert (0.0).Floor == 0;
    EaseRange(0.0);
    MixBetween(P[0], P[1], 0.0);
  }

  /** The red channel; the statements below are made on it, and the other two channels are alike. */
  predicate RedNondecreasing(P: seq<Rgb>, count: int)
    requires 2 <= count <= |P|
  {
    forall i, j :: 0 <= i <= j < count ==> P[i].r <= P[j].r
  }

  lemma SampleLinearRedBetweenStops(P: seq<Rgb>, pCount: int, t: real)
    requires |P| == 6 && pCount <= 6
    requires RedNondecreasing(P, StopCount(pCount))
    ensures var idx := SegmentIndex(StopCount(pCount), t);
      P[idx].r <= SampleLinear(P, pCount, t).r <= P[idx + 1].r
  {
  }

  lemma ScaleBelow(c1: real, c2: real, n: real, p1: real, p2: real)
    requires c1 <= c2 < 1.0 && n > 0.0
    requires p1 == c1 * n && p2 == c2 * n
    ensures p1 <= p2 < n
  {
    var d, e := (c2 - c1) * n, (1.0 - c2) * n;
    MulNonneg(c2 - c1, n);
    MulPositive(1.0 - c2, n);
    assert d == p2 - p1;
    assert e == n - p2;
  }

  /** Below t = 1 the clamp on the index is inactive and positions are ordered like t. */
  lemma PositionsBelowOne(count: int, t1: real, t2: real)
    requires count >= 2
    requires t1 <= t2 < 1.0
    ensures SegmentPosition(count, t1) <= SegmentPosition(count, t2) < (count - 1) as real
    ensures SegmentIndex(count, t1) <= SegmentIndex(count, t2)
  {
    var n := (count - 1) as real;
    var c1, c2 := Clamp(t1, 0.0, 1.0), Clamp(t2, 0.0, 1.0);
    var p1, p2 := SegmentPosition(count, t1), SegmentPosition(count, t2);
    assert c1 <= c2 < 1.0;
    ScaleBelow(c1, c2, n, p1, p2);
  }

  /** Within one segment the red channel follows the eased weight, which is monotone. */
  lemma SampleLinearMonotoneInSegment(P: seq<Rgb>, pCount: int, t1: real, t2: real)
    requires |P| == 6 && pCount <= 6
    requires RedNondecreasing(P, StopCount(pCount))
    requires t1 <= t2 < 1.0
    requires SegmentIndex(StopCount(pCount), t1) == SegmentIndex(StopCount(pCount), t2)
    ensures SampleLinear(P, pCount, t1).r <= SampleLinear(P, pCount, t2).r
  {
    var count := StopCount(pCount);
    PositionsBelowOne(count, t1, t2);
    var s1, s2 := SegmentPosition(count, t1), SegmentPosition(count, t2);
    var i := SegmentIndex(count, t1);
    var f1, f2 := Fract(s1), Fract(s2);
    assert f1 == s1 - i as real && f2 == s2 - i as real;
    EaseMonotone(f1, f2);
    EaseRange(f1);
    var a, b := P[i].r, P[i + 1].r;
    assert a <= b;
    assert SampleLinear(P, pCount, t1).r == MixReal(a, b, Ease(f1));
    assert SampleLinear(P, pCount, t2).r == MixReal(a, b, Ease(f2));
    assert MixReal(a, b, Ease(f1)) == a + (b - a) * Ease(f1);
    assert MixReal(a, b, Ease(f2)) == a + (b - a) * Ease(f2);
    MulNonneg(b - a, Ease(f2) - Ease(f1));
    assert (b - a) * (Ease(f2) - Ease(f1)) == (b - a) * Ease(f2) - (b - a) * Ease(f1);
  }

  /**
   * Below t = 1 the sample moves monotonically through a palette whose red channel is
   * non-decreasing.
   */
  lemma SampleLinearMonotoneBelowOne(P: seq<Rgb>, pCount: int, t1: real, t2: real)
    requires |P| == 6 && pCount <= 6
    requires RedNondecreasing(P, StopCount(pCount))
    requires t1 <= t2 < 1.0
    ensures SampleLinear(P, pCount, t1).r <= SampleLinear(P, pCount, t2).r
  {
    var count := StopCount(pCount);
    PositionsBelowOne(count, t1, t2);
    var i1, i2 := SegmentIndex(count, t1), SegmentIndex(count, t2);
    if i1 == i2 {
      SampleLinearMonotoneInSegment(P, pCount, t1, t2);
    } else {
      SampleLinearRedBetweenStops(P, pCount, t1);
      SampleLinearRedBetweenStops(P, pCount, t2);
      assert P[i1 + 1].r <= P[i2].r;
    }
  }

  /**
   * Because of the quirk, monotonicity fails at t = 1: halfway through the last segment a
   * palette rising in red is redder than at t = 1.
   */
  lemma SampleLinearDropsAtOne(P: seq<Rgb>, pCount: int)
    requires |P| == 6 && pCount <= 6
    requires P[StopCount(pCount) - 2].r < P[StopCount(pCount) - 1].r
    ensures var count := StopCount(pCount);
      SampleLinear(P, pCount, ((count - 2) as real + 0.5) / (count - 1) as real).r
        > SampleLinear(P, pCount, 1.0).r
  {
    var count := StopCount(pCount);
    var t := ((count - 2) as real + 0.5) / (count - 1) as real;
    MidLastSegment(count);
    var a, b := P[count - 2].r, P[count - 1].r;
    assert SampleLinear(P, pCount, t).r == MixReal(a, b, 0.5);
    assert MixReal(a, b, 0.5) == (a + b) / 2.0;
    SampleLinearAtOrAboveOne(P, pCount, 1.0);
  }

  /** The midpoint of the last segment lies below t = 1, in the last segment, at fraction one half. */
  lemma MidLastSegment(count: int)
    requires count >= 2
    ensures var t := ((count - 2) as real + 0.5) / (count - 1) as real;
      && 0.0 <= t < 1.0
      && SegmentIndex(count, t) == count - 2
      && Fract(SegmentPosition(count, t)) == 0.5
      && Ease(Fract(SegmentPosition(count, t))) == 0.5
  {
    var n := (count - 1) as real;
    var m := (count - 2) as real + 0.5;
    var t := m / n;
    assert t * n == m;
    assert 0.0 <= t < 1.0 by {
      assert m < n;
    }
    assert SegmentPosition(count, t) == m;
    assert m.Floor == count - 2;
    assert Fract(m) == 0.5;
    assert Ease(0.5) == 0.5;
  }

  // ----- samplePaletteSmooth -----

  /** `(c0 + 2 c1 + 4 c2 + 2 c3 + c4) / 10`. */
  function Weighted(c0: Rgb, c1: Rgb, c2: Rgb, c3: Rgb, c4: Rgb): Rgb {
    Rgb((c0.r + 2.0 * c1.r + 4.0 * c2.r + 2.0 * c3.r + c4.r) / 10.0,
        (c0.g + 2.0 * c1.g + 4.0 * c2.g + 2.0 * c3.g + c4.g) / 10.0,
        (c0.b + 2.0 * c1.b + 4.0 * c2.b + 2.0 * c3.b + c4.b) / 10.0)
  }

  /** The five tap positions, each clamped into [0, 1]. */
  function Taps(t: real, w: real): (taps: seq<real>)
    ensures |taps| == 5 && forall i :: 0 <= i < 5 ==> 0.0 <= taps[i] <= 1.0
  {
    [Clamp(t - 2.0 * w, 0.0, 1.0), Clamp(t - w, 0.0, 1.0), Clamp(t, 0.0, 1.0),
     Clamp(t + w, 0.0, 1.0), Clamp(t + 2.0 * w, 0.0, 1.0)]
  }

  /** `samplePaletteSmooth(t, w)`: the centre-weighted average of five linear samples. */
  function SampleSmooth(P: seq<Rgb>, pCount: int, t: real, w: real): (c: Rgb)
    requires |P| == 6 && pCount <= 6
    ensures w == 0.0 ==> c == SampleLinear(P, pCount, Clamp(t, 0.0, 1.0))
  {
    var taps := Taps(t, w);
    Weighted(SampleLinear(P, pCount, taps[0]), SampleLinear(P, pCount, taps[1]),
             SampleLinear(P, pCount, taps[2]), SampleLinear(P, pCount, taps[3]),
             SampleLinear(P, pCount, taps[4]))
  }

  predicate InBox(c: Rgb, lo: Rgb, hi: Rgb) {
    lo.r <= c.r <= hi.r && lo.g <= c.g <= hi.g && lo.b <= c.b <= hi.b
  }

  lemma SampleLinearInBox(P: seq<Rgb>, pCount: int, t: real, lo: Rgb, hi: Rgb)
    requires |P| == 6 && pCount <= 6
    requires forall i :: 0 <= i < StopCount(pCount) ==> InBox(P[i], lo, hi)
    ensures InBox(SampleLinear(P, pCount, t), lo, hi)
  {
    var idx := SegmentIndex(StopCount(pCount), t);
    assert InBox(P[idx], lo, hi) && InBox(P[idx + 1], lo, hi);
  }

  /**
   * The smoothed sample is a convex combination of palette samples: any box holding the
   * active stops holds it.
   */
  lemma SampleSmoothInBox(P: seq<Rgb>, pCount: int, t: real, w: real, lo: Rgb, hi: Rgb)
    requires |P| == 6 && pCount <= 6
    requires forall i :: 0 <= i < StopCount(pCount) ==> InBox(P[i], lo, hi)
    ensures InBox(SampleSmooth(P, pCount, t, w), lo, hi)
  {
    var taps := Taps(t, w);
    SampleLinearInBox(P, pCount, taps[0], lo, hi);
    SampleLinearInBox(P, pCount, taps[1], lo, hi);
    SampleLinearInBox(P, pCount, taps[2], lo, hi);
    SampleLinearInBox(P, pCount, taps[3], lo, hi);
    SampleLinearInBox(P, pCount, taps[4], lo, hi);
  }

  const Black: Rgb := Rgb(0.0, 0.0, 0.0)
  const White: Rgb := Rgb(1.0, 1.0, 1.0)

  /** With the stops the component uploads, the palette colour is a valid colour. */
  lemma UploadedPaletteStaysInUnitCube(props: PlasmaConfig.PlasmaProps, t: real, w: real)
    ensures var u := PlasmaConfig.InitialUniforms(props);
      InUnitCube(SampleSmooth(u.palette, u.uPCount, t, w))
  {
    var u := PlasmaConfig.InitialUniforms(props);
    forall i | 0 <= i < StopCount(u.uPCount) ensures InBox(u.palette[i], Black, White) {
      assert InUnitCube(u.palette[i]);
    }
    SampleSmoothInBox(u.palette, u.uPCount, t, w, Black, White);
  }

  // ----- the final colour and alpha -----

  /** `step(edge, x)`. */
  function Step(edge: real, x: real): (s: real)
    ensures s == 0.0 || s == 1.0
    ensures s == 1.0 <==> x >= edge
  {
    if x < edge then 0.0 else 1.0
  }

  /** `smoothstep(e0, e1, x)`. */
  function SmoothStep(e0: real, e1: real, x: real): (s: real)
    requires e0 < e1
    ensures 0.0 <= s <= 1.0
    ensures x <= e0 ==> s == 0.0
    ensures x >= e1 ==> s == 1.0
  {
    var t := Clamp((x - e0) / (e1 - e0), 0.0, 1.0);
    QuotientBounds(x - e0, e1 - e0);
    EaseRange(t);
    Ease(t)
  }

  /** `clamp((r + g + b) / 3, 0, 1)`. */
  function Intensity(base: Rgb): (i: real)
    ensures 0.0 <= i <= 1.0
  {
    Clamp((base.r + base.g + base.b) / 3.0, 0.0, 1.0)
  }

  function Scale(k: real, c: Rgb): Rgb {
    Rgb(k * c.r, k * c.g, k * c.b)
  }

  /** `mix(base, intensity * uCustomColor, step(0.5, uUseCustomColor))`: with the switch off it is the field colour. */
  function Tinted(base: Rgb, customColor: Rgb, useCustomColor: real): (c: Rgb)
    ensures useCustomColor < 0.5 ==> c == base
    ensures useCustomColor >= 0.5 ==> c == Scale(Intensity(base), customColor)
  {
    var s := Step(0.5, useCustomColor);
    MixBetween(base, Scale(Intensity(base), customColor), s);
    Mix(base, Scale(Intensity(base), customColor), s)
  }

  datatype Fragment = Fragment(color: Rgb, alpha: real)

  /** `mix(minAlpha, 1, e) * opacity` lies between the floor times opacity and opacity. */
  lemma AlphaBounds(minAlpha: real, e: real, opacity: real)
    requires 0.0 <= e <= 1.0
    ensures 0.0 <= minAlpha <= 1.0 && 0.0 <= opacity ==>
              minAlpha * opacity <= MixReal(minAlpha, 1.0, e) * opacity <= opacity
    ensures e == 0.0 ==> MixReal(minAlpha, 1.0, e) * opacity == minAlpha * opacity
    ensures e == 1.0 ==> MixReal(minAlpha, 1.0, e) * opacity == opacity
  {
    var m := MixReal(minAlpha, 1.0, e);
    MixRealBetween(minAlpha, 1.0, e);
    if 0.0 <= minAlpha <= 1.0 && 0.0 <= opacity {
      assert minAlpha <= m <= 1.0;
      MulNonneg(m - minAlpha, opacity);
      MulNonneg(1.0 - m, opacity);
      assert (m - minAlpha) * opacity == m * opacity - minAlpha * opacity;
      assert (1.0 - m) * opacity == opacity - m * opacity;
    }
  }

  /** `mix(minAlpha, 1, smoothstep(0.08, 0.85, intensity)) * opacity`. */
  function Alpha(minAlpha: real, intensity: real, opacity: real): (a: real)
    ensures 0.0 <= minAlpha <= 1.0 && 0.0 <= opacity ==> minAlpha * opacity <= a <= opacity
    ensures intensity <= 0.08 ==> a == minAlpha * opacity
    ensures intensity >= 0.85 ==> a == opacity
  {
    var e := SmoothStep(0.08, 0.85, intensity);
    AlphaBounds(minAlpha, e, opacity);
    MixReal(minAlpha, 1.0, e) * opacity
  }

  /** `mix(tinted, palColor, clamp(uPalStrength, 0, 1))`. */
  function BlendColor(tinted: Rgb, palColor: Rgb, palStrength: real): (c: Rgb)
    ensures Between(c, tinted, palColor)
    ensures palStrength >= 1.0 ==> c == palColor
    ensures palStrength <= 0.0 ==> c == tinted
  {
    var s := Clamp(palStrength, 0.0, 1.0);
    MixBetween(tinted, palColor, s);
    Mix(tinted, palColor, s)
  }

  /**
   * The end of `main`: blend the tinted field colour towards the palette colour by the
   * clamped strength, and derive alpha from intensity between the floor and 1, times opacity.
   */
  function Shade(base: Rgb, palColor: Rgb, customColor: Rgb, useCustomColor: real,
                 palStrength: real, minAlpha: real, opacity: real): (f: Fragment)
    ensures Between(f.color, Tinted(base, customColor, useCustomColor), palColor)
    ensures palStrength >= 1.0 ==> f.color == palColor
    ensures palStrength <= 0.0 ==> f.color == Tinted(base, customColor, useCustomColor)
    ensures 0.0 <= minAlpha <= 1.0 && 0.0 <= opacity ==> minAlpha * opacity <= f.alpha <= opacity
    ensures Intensity(base) <= 0.08 ==> f.alpha == minAlpha * opacity
    ensures Intensity(base) >= 0.85 ==> f.alpha == opacity
  {
    Fragment(BlendColor(Tinted(base, customColor, useCustomColor), palColor, palStrength),
             Alpha(minAlpha, Intensity(base), opacity))
  }

  /** `main` with the uniforms the component uploads, given the field colour and the blend inputs. */
  function ShadeWith(u: PlasmaConfig.Uniforms, base: Rgb, tMod: real, wBoost: real): (f: Fragment)
    requires |u.palette| == 6 && u.uPCount <= 6
    ensures var pal := SampleSmooth(u.palette, u.uPCount, tMod, wBoost);
      && Between(f.color, Tinted(base, u.uCustomColor, u.uUseCustomColor), pal)
      && (u.uPalStrength >= 1.0 ==> f.color == pal)
    ensures f.alpha == Alpha(u.uMinAlpha, Intensity(base), u.uOpacity)
  {
    var pal := SampleSmooth(u.palette, u.uPCount, tMod, wBoost);
    Shade(base, pal, u.uCustomColor, u.uUseCustomColor, u.uPalStrength, u.uMinAlpha, u.uOpacity)
  }

  /** What every uniform table built by the component satisfies. */
  predicate Uploaded(u: PlasmaConfig.Uniforms) {
    && |u.palette| == 6 && u.uPCount == 6
    && u.uUseCustomColor == 0.0
    && 0.0 <= u.uMinAlpha <= 1.0
    && forall i :: 0 <= i < 6 ==> InUnitCube(u.palette[i])
  }

  lemma InitialUniformsUploaded(props: PlasmaConfig.PlasmaProps)
    ensures Uploaded(PlasmaConfig.InitialUniforms(props))
  {
  }

  /**
   * With such uniforms, whatever the palette colour, the alpha lies between
   * minAlpha * opacity and opacity (so in [0, 1] for an opacity in [0, 1]), and the colour
   * lies between the field colour and the palette colour: the tint switch is 0, so the
   * custom colour never reaches the output.
   */
  lemma UploadedShadeBounds(u: PlasmaConfig.Uniforms, base: Rgb, palColor: Rgb)
    requires Uploaded(u) && 0.0 <= u.uOpacity
    ensures var f := Shade(base, palColor, u.uCustomColor, u.uUseCustomColor,
                           u.uPalStrength, u.uMinAlpha, u.uOpacity);
      && u.uMinAlpha * u.uOpacity <= f.alpha <= u.uOpacity
      && (u.uOpacity <= 1.0 ==> 0.0 <= f.alpha <= 1.0)
      && Between(f.color, base, palColor)
  {
    assert Tinted(base, u.uCustomColor, u.uUseCustomColor) == base;
    var f := Shade(base, palColor, u.uCustomColor, u.uUseCustomColor,
                   u.uPalStrength, u.uMinAlpha, u.uOpacity);
    var floor := u.uMinAlpha * u.uOpacity;
    ProductNonneg(u.uMinAlpha, u.uOpacity, floor);
  }

  /** The same bounds for the fragment `main` computes, whose palette colour is the smoothed sample. */
  lemma UploadedFragmentBounds(u: PlasmaConfig.Uniforms, base: Rgb, tMod: real, wBoost: real)
    requires Uploaded(u) && 0.0 <= u.uOpacity
    ensures var f := ShadeWith(u, base, tMod, wBoost);
      && u.uMinAlpha * u.uOpacity <= f.alpha <= u.uOpacity
      && (u.uOpacity <= 1.0 ==> 0.0 <= f.alpha <= 1.0)
      && Between(f.color, base, SampleSmooth(u.palette, u.uPCount, tMod, wBoost))
  {
    UploadedShadeBounds(u, base, SampleSmooth(u.palette, u.uPCount, tMod, wBoost));
  }

  /** Changing only the `color` prop changes no fragment. */
  lemma ColorPropHasNoEffect(props: PlasmaConfig.PlasmaProps, color: string, base: Rgb, tMod: real, wBoost: real)
    ensures ShadeWith(PlasmaConfig.InitialUniforms(props), base, tMod, wBoost)
         == ShadeWith(PlasmaConfig.InitialUniforms(props.(color := color)), base, tMod, wBoost)
  {
    var u := PlasmaConfig.InitialUniforms(props);
    var u' := PlasmaConfig.InitialUniforms(props.(color := color));
    PlasmaConfig.InitialUniformsOfColor(props, color);
    assert u' == u.(uCustomColor := u'.uCustomColor);
    var pal := SampleSmooth(u.palette, u.uPCount, tMod, wBoost);
    assert Tinted(base, u.uCustomColor, 0.0) == Tinted(base, u'.uCustomColor, 0.0);
  }

  /** The aurora background passes paletteStrength 1.5; the shader clamps it, so the palette colour is used as is. */
  lemma StrengthAboveOneUsesPalette(props: PlasmaConfig.PlasmaProps, base: Rgb, tMod: real, wBoost: real)
    requires props.paletteStrength >= 1.0
    ensures var u := PlasmaConfig.InitialUniforms(props);
      ShadeWith(u, base, tMod, wBoost).color == SampleSmooth(u.palette, u.uPCount, tMod, wBoost)
  {
  }
}
