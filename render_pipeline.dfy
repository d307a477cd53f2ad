/** The per-pixel arithmetic of RawLightedImage's sixteen bitmap routines:
    which routine the display settings select, the contrast stretch, the
    HSL remap and the scale factors it uses. */
module RenderPipeline {
  import opened Common
  import opened ColorSpace
  import opened HslConversion
  import opened Display
  import Lighting

  /** `Range`, the largest channel value. */
  const Range := 255

  /** DbPair: a running minimum and maximum. */
  datatype DbPair = DbPair(min: real, max: real)

  /** The HSL component a scan or a remap works on. */
  datatype Channel = HueC | SatC | LightC

  function Component(hsl: Hsl, ch: Channel): real
  {
    match ch
    case HueC => hsl.h
    case SatC => hsl.s
    case LightC => hsl.l
  }

  /** The starting pair of the GetMinMax scans: (360, 0) for the hue and
      (1, 0) for saturation and lightness. */
  function ScanStart(ch: Channel): (p: DbPair)
    ensures ch == HueC ==> p == DbPair(360.0, 0.0)
    ensures ch != HueC ==> p == DbPair(1.0, 0.0)
  {
    if ch == HueC then DbPair(360.0, 0.0) else DbPair(1.0, 0.0)
  }

  /** The range of values a component of ToHsl's result can take. */
  function ComponentTop(ch: Channel): real
  {
    if ch == HueC then 360.0 else 1.0
  }

  lemma {:induction false} ComponentInRange(c: Color, ch: Channel)
    ensures 0.0 <= Component(ToHsl(c), ch) <= ComponentTop(ch)
  {
  }

  /** One step of a scan: `Math.Min` and `Math.Max` with the next value. */
  function Widen(p: DbPair, v: real): (q: DbPair)
    ensures q.min <= p.min && q.min <= v && (q.min == p.min || q.min == v)
    ensures p.max <= q.max && v <= q.max && (q.max == p.max || q.max == v)
  {
    DbPair(if v < p.min then v else p.min, if v > p.max then v else p.max)
  }

  /** Which of the routines GetBitmapDepth / GetBitmapColor dispatch to. */
  datatype Route = PlainRoute | ContrastRoute | HslRoute(hue: bool, sat: bool, light: bool)

  /** The dispatch: Contrast mode stretches; HSL mode remaps the flagged
      components, or falls through to the plain routine when none is
      flagged; Off is plain. */
  function ChooseRoute(mode: DisplayMode, hue: bool, sat: bool, light: bool): (r: Route)
    ensures r == ContrastRoute <==> mode == Contrast
    ensures r.HslRoute? <==> mode == HslMode && (hue || sat || light)
    ensures r.HslRoute? ==> r == HslRoute(hue, sat, light)
    ensures r == PlainRoute <==> mode == Off || (mode == HslMode && !hue && !sat && !light)
  {
    match mode
    case Contrast => ContrastRoute
    case HslMode =>
      if hue || sat || light then HslRoute(hue, sat, light) else PlainRoute
    case Off => PlainRoute
  }

  /** The contrast stretch of one channel:
      `clamp(0, 255, (int)((v - lo) * (255 / (hi - lo)) + 0.49999))`. */
  function StretchChannel(v: byte, lo: byte, hi: byte): (r: byte)
    requires lo != hi
    ensures var t := (v - lo) as real * (Range as real / (hi - lo) as real);
      0.0 <= t <= 255.0 ==> r as real - 0.49999 <= t < r as real + 0.50001
  {
    Rounded((v - lo) as real, Range as real / (hi - lo) as real)
  }

  /** `clamp(0, 255, (int)(a * k + 0.49999))`. */
  function Rounded(a: real, k: real): (r: byte)
    ensures 0.0 <= a * k <= 255.0 ==> r as real - 0.49999 <= a * k < r as real + 0.50001
    ensures a * k < 0.50001 ==> r == 0
    ensures 254.50001 <= a * k ==> r == 255
  {
    ClampInt(Trunc(a * k + 0.49999), 0, Range)
  }

  /** With the full range as bounds the stretch is the identity. */
  lemma {:induction false} StretchFullRange(v: byte)
    ensures StretchChannel(v, 0, 255) == v
  {
    assert (v - 0) as real * (255.0 / 255.0) + 0.49999 == v as real + 0.49999;
  }

  /** Values at or below the lower bound go to 0, values at or above the
      upper bound to 255. */
  lemma {:induction false} StretchSaturates(v: byte, lo: byte, hi: byte)
    requires lo < hi
    ensures v <= lo ==> StretchChannel(v, lo, hi) == 0
    ensures hi <= v ==> StretchChannel(v, lo, hi) == 255
  {
    var stretch := Range as real / (hi - lo) as real;
    var x := (v - lo) as real * stretch + 0.49999;
    if v <= lo {
      assert (v - lo) as real * stretch <= 0.0 by {
        ProductSign((lo - v) as real, stretch);
      }
    }
    if hi <= v {
      assert (v - lo) as real * stretch >= 255.0 by {
        assert (hi - lo) as real * stretch == 255.0;
        ProductSign((v - hi) as real, stretch);
      }
    }
  }

  /** With ordered bounds the stretch preserves order. */
  lemma {:induction false} StretchMonotone(v: byte, w: byte, lo: byte, hi: byte)
    requires v <= w && lo < hi
    ensures StretchChannel(v, lo, hi) <= StretchChannel(w, lo, hi)
  {
    var stretch := Range as real / (hi - lo) as real;
    assert stretch * (hi - lo) as real == 255.0;
    SignOfProduct(stretch, (hi - lo) as real);
    ScaledRoundingMonotone((v - lo) as real, (w - lo) as real, stretch);
  }

  /** The rounding step of the stretch preserves order for a positive
      stretch factor. */
  lemma {:induction false} ScaledRoundingMonotone(a: real, b: real, k: real)
    requires a <= b && 0.0 < k
    ensures Rounded(a, k) <= Rounded(b, k)
  {
    var x := a * k + 0.49999;
    var y := b * k + 0.49999;
    assert y - x == (b - a) * k;
    ProductSign(b - a, k);
    var tx, ty := Trunc(x), Trunc(y);
    if x < 0.0 {
      ClampMonotone(tx, if ty < tx then tx else ty);
    } else {
      TruncMonotone(x, y);
      ClampMonotone(tx, ty);
    }
  }

  lemma ClampMonotone(a: int, b: int)
    requires a <= b
    ensures ClampInt(a, 0, Range) <= ClampInt(b, 0, Range)
  {
  }

  lemma ProductSign(a: real, k: real)
    requires 0.0 <= a && 0.0 < k
    ensures 0.0 <= a * k
  {
  }

  /** The contrast bounds are usable: three per side and no empty range
      (an empty range would divide by zero). */
  predicate StretchBounds(minRgb: seq<byte>, maxRgb: seq<byte>)
  {
    |minRgb| == 3 && |maxRgb| == 3 && forall k :: 0 <= k < 3 ==> minRgb[k] != maxRgb[k]
  }

  /** The contrast stretch of a colour: bounds index 0 for blue, 1 for
      green, 2 for red; alpha passes through. */
  function StretchColor(c: Color, minRgb: seq<byte>, maxRgb: seq<byte>): (s: Color)
    requires StretchBounds(minRgb, maxRgb)
    ensures s.a == c.a
  {
    Color(c.a, StretchChannel(c.r, minRgb[2], maxRgb[2]), StretchChannel(c.g, minRgb[1], maxRgb[1]),
      StretchChannel(c.b, minRgb[0], maxRgb[0]))
  }

  /** With the default bounds the stretch leaves every colour unchanged. */
  lemma {:induction false} StretchDefaultIsIdentity(c: Color)
    ensures StretchColor(c, [0, 0, 0], [255, 255, 255]) == c
  {
    StretchFullRange(c.r);
    StretchFullRange(c.g);
    StretchFullRange(c.b);
  }

  /** One component remap: `targetMin + (v - observedMin) * scale`. */
  datatype Remap = Remap(targetMin: real, scale: real, observedMin: real)

  function Apply(r: Remap, v: real): real
  {
    r.targetMin + (v - r.observedMin) * r.scale
  }

  /** The scale factor: the target range over the observed range, or 1 when
      the observed range is empty. */
  function ScaleFactor(targetMin: real, targetMax: real, observed: DbPair): (f: real)
    ensures observed.max <= observed.min ==> f == 1.0
    ensures observed.min < observed.max ==> f * (observed.max - observed.min) == targetMax - targetMin
  {
    if observed.max > observed.min then (targetMax - targetMin) / (observed.max - observed.min) else 1.0
  }

  /** The remap built from an observed range carries that range onto the
      target range: its ends onto the target's ends and everything between
      into the target range. */
  lemma {:induction false} RemapOntoTarget(targetMin: real, targetMax: real, observed: DbPair, v: real)
    requires observed.min < observed.max && targetMin <= targetMax
    requires observed.min <= v <= observed.max
    ensures var r := Remap(targetMin, ScaleFactor(targetMin, targetMax, observed), observed.min);
      Apply(r, observed.min) == targetMin && Apply(r, observed.max) == targetMax
      && targetMin <= Apply(r, v) <= targetMax
  {
    var f := ScaleFactor(targetMin, targetMax, observed);
    var span := observed.max - observed.min;
    var t := (v - observed.min) / span;
    assert 0.0 <= t <= 1.0 by {
      assert t * span == v - observed.min;
      SignOfProduct(t, span);
      SignOfProduct(1.0 - t, span);
      assert (1.0 - t) * span == observed.max - v;
    }
    assert (v - observed.min) * f == t * (targetMax - targetMin) by {
      assert v - observed.min == t * span;
      assert f * span == targetMax - targetMin;
    }
    ScaleWithin(targetMax - targetMin, t, (v - observed.min) * f);
  }

  /** The HSL remap of a colour: convert, remap the components that have a
      remap (through the HSL setters: hue wrapped, the others clamped),
      convert back with the same alpha. */
  function RemapHsl(c: Color, hue: Option<Remap>, sat: Option<Remap>, light: Option<Remap>): (d: Color)
    ensures d.a == c.a
  {
    var hsl := ToHsl(c);
    var s := if sat.Some? then ClampReal(Apply(sat.value, hsl.s), 0.0, 1.0) else hsl.s;
    var l := if light.Some? then ClampReal(Apply(light.value, hsl.l), 0.0, 1.0) else hsl.l;
    var h := if hue.Some? then WrapHue(Apply(hue.value, hsl.h)) else hsl.h;
    ToRgb(Hsl(h, s, l), c.a)
  }

  /** A remap that maps the observed minimum to itself with scale 1. */
  predicate Neutral(r: Option<Remap>)
  {
    r.None? || (r.value.targetMin == r.value.observedMin && r.value.scale == 1.0)
  }

  /** Remapping with neutral remaps (or none) gives the colour back. */
  lemma {:induction false} NeutralRemapKeepsColor(c: Color, hue: Option<Remap>, sat: Option<Remap>, light: Option<Remap>)
    requires Neutral(hue) && Neutral(sat) && Neutral(light)
    ensures RemapHsl(c, hue, sat, light) == c
  {
    var hsl := ToHsl(c);
    assert hue.Some? ==> Apply(hue.value, hsl.h) == hsl.h;
    assert sat.Some? ==> Apply(sat.value, hsl.s) == hsl.s;
    assert light.Some? ==> Apply(light.value, hsl.l) == hsl.l;
    RoundTrip(c);
  }

  /** The target ranges the HSL routines read from DisplayInfo. */
  datatype Targets = Targets(minHue: real, maxHue: real, minSat: real, maxSat: real, minLight: real, maxLight: real)

  /** The remaps an HSL route uses, from the observed ranges of the flagged
      components. The routine that remaps the hue alone starts the new hue
      at the minimum saturation rather than the minimum hue. */
  function HslRemaps(hue: bool, sat: bool, light: bool, t: Targets, huePr: DbPair, satPr: DbPair, lightPr: DbPair)
    : (r: (Option<Remap>, Option<Remap>, Option<Remap>))
    ensures r.0.Some? <==> hue
    ensures r.1.Some? <==> sat
    ensures r.2.Some? <==> light
    ensures hue ==> r.0.value.scale == ScaleFactor(t.minHue, t.maxHue, huePr) && r.0.value.observedMin == huePr.min
    ensures hue && (sat || light) ==> r.0.value.targetMin == t.minHue
    ensures hue && !sat && !light ==> r.0.value.targetMin == t.minSat
    ensures sat ==> r.1.value == Remap(t.minSat, ScaleFactor(t.minSat, t.maxSat, satPr), satPr.min)
    ensures light ==> r.2.value == Remap(t.minLight, ScaleFactor(t.minLight, t.maxLight, lightPr), lightPr.min)
  {
    var hueBase := if !sat && !light then t.minSat else t.minHue;
    (if hue then Some(Remap(hueBase, ScaleFactor(t.minHue, t.maxHue, huePr), huePr.min)) else None,
     if sat then Some(Remap(t.minSat, ScaleFactor(t.minSat, t.maxSat, satPr), satPr.min)) else None,
     if light then Some(Remap(t.minLight, ScaleFactor(t.minLight, t.maxLight, lightPr), lightPr.min)) else None)
  }

  /** The hue-only routine with MinHue != MinSaturation maps the smallest
      observed hue to MinSaturation, not to MinHue. */
  lemma {:induction false} HueOnlyStartsAtMinSaturation(t: Targets, huePr: DbPair, satPr: DbPair, lightPr: DbPair)
    requires t.minHue != t.minSat
    ensures var r := HslRemaps(true, false, false, t, huePr, satPr, lightPr);
      Apply(r.0.value, huePr.min) == t.minSat && Apply(r.0.value, huePr.min) != t.minHue
  {
  }

  /** What a routine does to one pixel's colour before lighting. */
  datatype Process = Plain | Stretch(minRgb: seq<byte>, maxRgb: seq<byte>) | HslRemap(hue: Option<Remap>, sat: Option<Remap>, light: Option<Remap>)

  predicate ProcessOk(p: Process)
  {
    p.Stretch? ==> StretchBounds(p.minRgb, p.maxRgb)
  }

  function Transform(p: Process, c: Color): (d: Color)
    requires ProcessOk(p)
    ensures d.a == c.a
    ensures p.Plain? ==> d == c
  {
    match p
    case Plain => c
    case Stretch(minRgb, maxRgb) => StretchColor(c, minRgb, maxRgb)
    case HslRemap(hue, sat, light) => RemapHsl(c, hue, sat, light)
  }

  /** A pixel's output colour: transformed, then lit when the image is a
      depth image (the colour-mode routines do not light). */
  function FinalColor(p: Process, c: Color, lit: bool, lite: Vec3, ambient: real): (d: Color)
    requires ProcessOk(p)
    ensures d.a == c.a
    ensures lit ==> d == Lighting.CalculateLight(Transform(p, c), lite, ambient)
    ensures !lit ==> d == Transform(p, c)
  {
    if lit then Lighting.CalculateLight(Transform(p, c), lite, ambient) else Transform(p, c)
  }

  /** The byte at offset `c` of a pixel: B, G, R, A in that order. */
  function ByteOf(color: Color, c: int): byte
  {
    if c == 0 then color.b else if c == 1 then color.g else if c == 2 then color.r else color.a
  }
}
