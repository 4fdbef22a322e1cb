/**
 * Configuration glue of the Plasma background (components/ui/Plasma.tsx): the props and
 * their defaults, the normalisation of the palette to six stops, and the uniform values
 * and device pixel ratio the effect derives from the props.
 */
module PlasmaConfig {
  import opened Wrappers
  import opened PlasmaColor
  import opened RealArith

  datatype Direction = Forward | Reverse | Pingpong

  /** The props of the component, with the unused `mouseInteractive` left out. */
  datatype PlasmaProps = PlasmaProps(
    color: string,
    speed: real,
    direction: Direction,
    scale: real,
    opacity: real,
    quality: real,
    paletteColors: seq<string>,
    paletteStrength: real,
    minAlpha: real)

  const DefaultStop: string := "#93C5FD"
  const MaxStops: nat := 6

  /** The destructuring defaults of the component. */
  const Defaults: PlasmaProps := PlasmaProps(
    "#93C5FD", 2.0, Forward, 1.0, 1.0, 0.5,
    ["#0B3C91", "#1D4ED8", "#2563EB", "#3B82F6", "#60A5FA", "#93C5FD"],
    1.0, 0.7)

  /** The nine colours the aurora background passes in (components/ui/aurora-background.tsx). */
  const AuroraPalette: seq<string> := [
    "#0B3C91", "#1D4ED8", "#2563EB", "#3B82F6", "#60A5FA",
    "#93C5FD", "#093074", "#07275E", "#061E48"]

  // ----- palette stops -----

  /** The colour a short palette is padded with: its last entry, or the default when it is empty. */
  function PadColor(kept: seq<string>): string {
    if kept == [] then DefaultStop else kept[|kept| - 1]
  }

  /** Reference definition of the stop list: at most six input colours, then padding. */
  function Stops(palette: seq<string>): (s: seq<string>)
    ensures |s| == MaxStops
    ensures forall i :: 0 <= i < |palette| && i < MaxStops ==> s[i] == palette[i]
    ensures forall i :: |palette| <= i < MaxStops ==>
              s[i] == (if palette == [] then DefaultStop else palette[|palette| - 1])
  {
    var kept := if |palette| <= MaxStops then palette else palette[..MaxStops];
    kept + seq(MaxStops - |kept|, _ => PadColor(kept))
  }

  /**
   * The `stops` computation: slice the first six colours, then push the last one
   * (or the default) until there are six.
   */
  method NormaliseStops(paletteColors: seq<string>) returns (stops: seq<string>)
    ensures stops == Stops(paletteColors)
  {
    var n := if |paletteColors| < MaxStops then |paletteColors| else MaxStops;
    var arr := paletteColors[..n];
    while |arr| < MaxStops
      invariant n <= |arr| <= MaxStops
      invariant arr[..n] == paletteColors[..n]
      invariant forall i :: n <= i < |arr| ==> arr[i] == PadColor(paletteColors[..n])
    {
      var last := if |arr| > 0 then arr[|arr| - 1] else DefaultStop;
      assert last == PadColor(paletteColors[..n]) by {
        if |arr| > n { } else if n > 0 { assert arr[n - 1] == paletteColors[..n][n - 1]; }
      }
      arr := arr + [last];
    }
    var spec := Stops(paletteColors);
    forall i | 0 <= i < MaxStops ensures arr[i] == spec[i] {
      if i < n {
        assert arr[i] == arr[..n][i];
      } else {
        assert n == |paletteColors| && paletteColors[..n] == paletteColors;
      }
    }
    stops := arr;
  }

  /** `Math.max(2, Math.min(stops.length, 6))`. */
  function PCount(stopsLength: nat): (c: int)
    ensures 2 <= c <= MaxStops
    ensures 2 <= stopsLength <= MaxStops ==> c == stopsLength
  {
    if stopsLength < 2 then 2 else if stopsLength > MaxStops then MaxStops else stopsLength
  }

  /** Since the stop list always has six entries, the shader always sees six stops. */
  lemma PCountAlwaysSix(palette: seq<string>)
    ensures PCount(|Stops(palette)|) == MaxStops
  {
  }

  /** An empty palette becomes six copies of the default stop. */
  lemma EmptyPaletteStops()
    ensures Stops([]) == [DefaultStop, DefaultStop, DefaultStop, DefaultStop, DefaultStop, DefaultStop]
  {
  }

  /** The aurora background's nine colours are cut to their first six. */
  lemma AuroraPaletteTruncated()
    ensures Stops(AuroraPalette) == AuroraPalette[..MaxStops]
  {
    var s := Stops(AuroraPalette);
    assert forall i :: 0 <= i < MaxStops ==> s[i] == AuroraPalette[..MaxStops][i];
  }

  // ----- uniform values -----

  /** `direction === "reverse" ? -1.0 : 1.0`: pingpong runs forward. */
  function DirectionSign(d: Direction): (s: real)
    ensures s == -1.0 || s == 1.0
    ensures s == -1.0 <==> d == Reverse
  {
    if d == Reverse then -1.0 else 1.0
  }

  /** `Math.max(0.0001, scale)`. */
  function ScaleUniform(scale: real): (u: real)
    ensures u > 0.0
    ensures u >= scale && u >= 0.0001
    ensures u == scale || u == 0.0001
  {
    if scale < 0.0001 then 0.0001 else scale
  }

  /** `quality >= 0.92 ? 60 : 48`: the iteration count of the field loop. */
  function IterCount(quality: real): (n: int)
    ensures n == 60 || n == 48
    ensures n == 60 <==> quality >= 0.92
  {
    if quality >= 0.92 then 60 else 48
  }

  /** `Math.max(0.0, Math.min(1.0, minAlpha))`. */
  function MinAlphaUniform(minAlpha: real): (u: real)
    ensures 0.0 <= u <= 1.0
    ensures 0.0 <= minAlpha <= 1.0 ==> u == minAlpha
    ensures minAlpha < 0.0 ==> u == 0.0
    ensures minAlpha > 1.0 ==> u == 1.0
  {
    if minAlpha < 0.0 then 0.0 else if minAlpha > 1.0 then 1.0 else minAlpha
  }

  /** `Math.min(window.devicePixelRatio || 1, 2)`: an absent or zero ratio reads as 1, and it is capped at 2. */
  function BaseDpr(devicePixelRatio: Option<real>): (b: real)
    ensures b <= 2.0
    ensures devicePixelRatio.None? || devicePixelRatio.value == 0.0 ==> b == 1.0
    ensures devicePixelRatio.Some? && devicePixelRatio.value != 0.0 ==>
              b == (if devicePixelRatio.value < 2.0 then devicePixelRatio.value else 2.0)
  {
    var ratio := if devicePixelRatio.None? || devicePixelRatio.value == 0.0 then 1.0 else devicePixelRatio.value;
    if ratio < 2.0 then ratio else 2.0
  }

  /** `Math.max(0.6, Math.min(1.0, quality)) * baseDpr`. */
  function Dpr(quality: real, devicePixelRatio: Option<real>): (d: real)
    ensures var b := BaseDpr(devicePixelRatio);
      && (0.6 <= quality <= 1.0 ==> d == quality * b)
      && (quality < 0.6 ==> d == 0.6 * b)
      && (quality > 1.0 ==> d == b)
    ensures devicePixelRatio.None? || devicePixelRatio.value >= 0.0 ==>
              0.0 < d <= 2.0 && 0.6 * BaseDpr(devicePixelRatio) <= d <= BaseDpr(devicePixelRatio)
  {
    var q := if quality < 0.6 then 0.6 else if quality > 1.0 then 1.0 else quality;
    var b := BaseDpr(devicePixelRatio);
    var d := q * b;
    ProductBetween(0.6, q, b, d);
    d
  }

  /** The uniform table the program is created with. */
  datatype Uniforms = Uniforms(
    iTime: real,
    iResolution: (real, real),
    uCustomColor: Rgb,
    uUseCustomColor: real,
    uSpeed: real,
    uDirection: real,
    uScale: real,
    uOpacity: real,
    uIter: int,
    uPCount: int,
    uPalStrength: real,
    uMinAlpha: real,
    palette: seq<Rgb>)

  /** The stop colours `stops.map(hexToRgb)`. */
  function StopColors(palette: seq<string>): (p: seq<Rgb>)
    ensures |p| == MaxStops
    ensures forall i :: 0 <= i < MaxStops ==> p[i] == HexToRgb(Stops(palette)[i]) && InUnitCube(p[i])
  {
    var stops := Stops(palette);
    seq(MaxStops, i requires 0 <= i < MaxStops => HexToRgb(stops[i]))
  }

  /**
   * The initial uniform values: every bounded uniform is in range whatever the props are,
   * the tint switch is off, and the pass-through uniforms carry the props unchanged.
   */
  function InitialUniforms(props: PlasmaProps): (u: Uniforms)
    ensures u.iTime == 0.0 && u.iResolution == (1.0, 1.0)
    ensures u.uUseCustomColor == 0.0 && InUnitCube(u.uCustomColor)
    ensures u.uSpeed == props.speed && u.uOpacity == props.opacity && u.uPalStrength == props.paletteStrength
    ensures u.uDirection == -1.0 <==> props.direction == Reverse
    ensures u.uDirection == 1.0 <==> props.direction != Reverse
    ensures u.uScale > 0.0 && (props.scale >= 0.0001 ==> u.uScale == props.scale)
    ensures u.uIter == 60 <==> props.quality >= 0.92
    ensures u.uIter == 48 <==> props.quality < 0.92
    ensures u.uPCount == MaxStops
    ensures 0.0 <= u.uMinAlpha <= 1.0
    ensures |u.palette| == MaxStops && forall i :: 0 <= i < MaxStops ==> InUnitCube(u.palette[i])
    ensures u.palette == StopColors(props.paletteColors)
    ensures u.uCustomColor == HexToRgb(props.color)
    ensures u.uMinAlpha == MinAlphaUniform(props.minAlpha)
    ensures u.uScale == ScaleUniform(props.scale)
    ensures u.uDirection == DirectionSign(props.direction) && u.uIter == IterCount(props.quality)
  {
    Uniforms(
      0.0, (1.0, 1.0),
      HexToRgb(props.color), 0.0,
      props.speed,
      DirectionSign(props.direction),
      ScaleUniform(props.scale),
      props.opacity,
      IterCount(props.quality),
      PCount(|Stops(props.paletteColors)|),
      props.paletteStrength,
      MinAlphaUniform(props.minAlpha),
      StopColors(props.paletteColors))
  }

  /** The `color` prop reaches only the custom-colour uniform. */
  lemma InitialUniformsOfColor(props: PlasmaProps, color: string)
    ensures InitialUniforms(props.(color := color))
         == InitialUniforms(props).(uCustomColor := HexToRgb(color))
  {
  }

  /** With the defaults: forward, 48 iterations, alpha floor 0.7, dpr 0.6 times the capped ratio. */
  lemma DefaultUniforms(devicePixelRatio: Option<real>)
    ensures var u := InitialUniforms(Defaults);
      u.uDirection == 1.0 && u.uIter == 48 && u.uMinAlpha == 0.7 && u.uScale == 1.0
    ensures Dpr(Defaults.quality, devicePixelRatio) == 0.6 * BaseDpr(devicePixelRatio)
  {
  }
}
