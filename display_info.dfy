/** DisplayInfo: how a raw image is to be post-processed — the display mode,
    which HSL components to remap, the per-channel contrast bounds and the
    HSL target ranges. */
module Display {
  import opened Common

  /** DisplayMode: no post-processing, contrast stretch, or HSL remap. */
  datatype DisplayMode = Off | Contrast | HslMode

  /** `MAX_HUE`, the largest hue `Validate` and `ResetHsl` allow. */
  const MaxHueLimit: real := 359.9

  /** `IdealMaxHue`, the default top of the hue range. */
  const IdealMaxHue: real := 300.0

  /** A lower and an upper bound. */
  datatype Bounds = Bounds(lo: real, hi: real)

  function MinR(x: real, y: real): real { if x <= y then x else y }
  function MaxR(x: real, y: real): real { if x <= y then y else x }

  /** Validate's treatment of one pair: swap the bounds if they are out of
      order, then raise the lower bound to 0 and lower the upper bound to
      `top`, each on its own. */
  function SwapThenClamp(lo: real, hi: real, top: real): (b: Bounds)
    requires 0.0 <= top
    ensures 0.0 <= b.lo && b.hi <= top
    ensures 0.0 <= MinR(lo, hi) ==> b.lo == MinR(lo, hi)
    ensures MinR(lo, hi) < 0.0 ==> b.lo == 0.0
    ensures MaxR(lo, hi) <= top ==> b.hi == MaxR(lo, hi)
    ensures top < MaxR(lo, hi) ==> b.hi == top
    ensures 0.0 <= lo <= top && 0.0 <= hi <= top ==>
      b.lo <= b.hi && (b == Bounds(lo, hi) || b == Bounds(hi, lo))
  {
    var (l, h) := if lo > hi then (hi, lo) else (lo, hi);
    Bounds(if l < 0.0 then 0.0 else l, if h > top then top else h)
  }

  /** The bounds come out ordered whenever the smaller input does not exceed
      `top` and the larger is not negative. */
  lemma {:induction false} SwapThenClampOrdered(lo: real, hi: real, top: real)
    requires 0.0 <= top && MinR(lo, hi) <= top && 0.0 <= MaxR(lo, hi)
    ensures SwapThenClamp(lo, hi, top).lo <= SwapThenClamp(lo, hi, top).hi
  {
  }

  /** Both inputs above the limit: the clamps leave the lower bound above the
      upper one. */
  lemma HueBoundsCanCross()
    ensures var b := SwapThenClamp(400.0, 500.0, MaxHueLimit);
      b.lo == 400.0 && b.hi == MaxHueLimit && b.hi < b.lo
  {
  }

  /** An ordered pair within [0,top] is kept as it is. */
  lemma {:induction false} SwapThenClampKeeps(lo: real, hi: real, top: real)
    requires 0.0 <= lo <= hi <= top
    ensures SwapThenClamp(lo, hi, top) == Bounds(lo, hi)
  {
  }

  /** A pair of bytes in order: the smaller first. */
  function SortPair(x: byte, y: byte): (p: (byte, byte))
    ensures p.0 <= p.1 && (p == (x, y) || p == (y, x))
  {
    if x > y then (y, x) else (x, y)
  }

  /** The statements Validate repeats for each real pair: swap when out of
      order, then clamp the lower bound at 0 and the upper at `top`. */
  method OrderAndClamp(min: real, max: real, top: real) returns (lo: real, hi: real)
    requires 0.0 <= top
    ensures Bounds(lo, hi) == SwapThenClamp(min, max, top)
  {
    lo, hi := min, max;
    if lo > hi {
      lo, hi := hi, lo;
    }
    if lo < 0.0 {
      lo := 0.0;
    }
    if hi > top {
      hi := top;
    }
  }

  class DisplayInfo {
    var mode: DisplayMode
    var saturation: bool
    var hue: bool
    var lightness: bool
    var minRgb: array<byte>
    var maxRgb: array<byte>
    var minHue: real
    var maxHue: real
    var minSaturation: real
    var maxSaturation: real
    var minLightness: real
    var maxLightness: real

    /** Three contrast bounds on each side, held in two distinct arrays
        (indexed B, G, R). */
    predicate Valid()
      reads this
    {
      minRgb.Length == 3 && maxRgb.Length == 3 && minRgb != maxRgb
    }

    /** The defaults: mode Off, no component flags, contrast bounds 0 and 255,
        hue [0,300], saturation and lightness [0,1]. */
    constructor ()
      ensures Valid() && fresh(minRgb) && fresh(maxRgb)
      ensures mode == Off && !saturation && !hue && !lightness
      ensures minRgb[..] == [0, 0, 0] && maxRgb[..] == [255, 255, 255]
      ensures minHue == 0.0 && maxHue == IdealMaxHue
      ensures minSaturation == 0.0 && maxSaturation == 1.0
      ensures minLightness == 0.0 && maxLightness == 1.0
    {
      mode := Off;
      saturation, hue, lightness := false, false, false;
      minRgb := new byte[] [0, 0, 0];
      maxRgb := new byte[] [255, 255, 255];
      minHue, maxHue := 0.0, IdealMaxHue;
      minSaturation, maxSaturation := 0.0, 1.0;
      minLightness, maxLightness := 0.0, 1.0;
    }

    /** Puts every contrast pair in order, then swaps and clamps the hue pair
        to [0,MaxHueLimit] and the saturation and lightness pairs to [0,1]. */
    method Validate()
      requires Valid()
      modifies this, minRgb, maxRgb
      ensures Valid() && minRgb == old(minRgb) && maxRgb == old(maxRgb)
      ensures mode == old(mode) && saturation == old(saturation) && hue == old(hue) && lightness == old(lightness)
      ensures forall i :: 0 <= i < 3 ==> (minRgb[i], maxRgb[i]) == SortPair(old(minRgb[i]), old(maxRgb[i]))
      ensures Bounds(minHue, maxHue) == SwapThenClamp(old(minHue), old(maxHue), MaxHueLimit)
      ensures Bounds(minSaturation, maxSaturation) == SwapThenClamp(old(minSaturation), old(maxSaturation), 1.0)
      ensures Bounds(minLightness, maxLightness) == SwapThenClamp(old(minLightness), old(maxLightness), 1.0)
    {
      for index := 0 to 3
        modifies minRgb, maxRgb
        invariant forall i :: 0 <= i < index ==> (minRgb[i], maxRgb[i]) == SortPair(old(minRgb[i]), old(maxRgb[i]))
        invariant forall i :: index <= i < 3 ==> minRgb[i] == old(minRgb[i]) && maxRgb[i] == old(maxRgb[i])
      {
        if minRgb[index] > maxRgb[index] {
          minRgb[index], maxRgb[index] := maxRgb[index], minRgb[index];
        }
      }

      minHue, maxHue := OrderAndClamp(minHue, maxHue, MaxHueLimit);
      minSaturation, maxSaturation := OrderAndClamp(minSaturation, maxSaturation, 1.0);
      minLightness, maxLightness := OrderAndClamp(minLightness, maxLightness, 1.0);
    }

    /** Sets every contrast bound back to the full byte range; nothing else
        changes. */
    method ResetContrast()
      requires Valid()
      modifies minRgb, maxRgb
      ensures minRgb[..] == [0, 0, 0] && maxRgb[..] == [255, 255, 255]
    {
      for i := 0 to 3
        invariant forall k :: 0 <= k < i ==> minRgb[k] == 0 && maxRgb[k] == 255
      {
        minRgb[i] := 0;
        maxRgb[i] := 255;
      }
    }

    /** Sets the hue range to [0,MaxHueLimit] and the saturation and
        lightness ranges to [0,1]; mode, flags and contrast bounds are kept. */
    method ResetHsl()
      modifies this
      ensures minHue == 0.0 && maxHue == MaxHueLimit
      ensures minSaturation == 0.0 && maxSaturation == 1.0
      ensures minLightness == 0.0 && maxLightness == 1.0
      ensures mode == old(mode) && saturation == old(saturation) && hue == old(hue) && lightness == old(lightness)
      ensures minRgb == old(minRgb) && maxRgb == old(maxRgb)
    {
      minHue := 0.0;
      maxHue := MaxHueLimit;
      minSaturation := 0.0;
      maxSaturation := 1.0;
      minLightness := 0.0;
      maxLightness := 1.0;
    }

    /** Clone's loop: the three contrast bounds of each array copied over. */
    method CopyBoundsInto(mins: array<byte>, maxs: array<byte>)
      requires Valid() && mins.Length == 3 && maxs.Length == 3 && mins != maxs
      requires mins != minRgb && mins != maxRgb && maxs != minRgb && maxs != maxRgb
      modifies mins, maxs
      ensures mins[..] == minRgb[..] && maxs[..] == maxRgb[..]
    {
      for x := 0 to 3
        invariant forall k :: 0 <= k < x ==> mins[k] == minRgb[k] && maxs[k] == maxRgb[k]
      {
        mins[x] := minRgb[x];
        maxs[x] := maxRgb[x];
      }
    }

    /** A new object with the same settings and its own contrast arrays. */
    method Clone() returns (copy: DisplayInfo)
      requires Valid()
      ensures fresh(copy) && fresh(copy.minRgb) && fresh(copy.maxRgb) && copy.Valid()
      ensures copy.mode == mode && copy.saturation == saturation && copy.hue == hue && copy.lightness == lightness
      ensures copy.minRgb[..] == minRgb[..] && copy.maxRgb[..] == maxRgb[..]
      ensures copy.minHue == minHue && copy.maxHue == maxHue
      ensures copy.minSaturation == minSaturation && copy.maxSaturation == maxSaturation
      ensures copy.minLightness == minLightness && copy.maxLightness == maxLightness
    {
      copy := new DisplayInfo.CopyOf(this);
    }

    /** Clone's new object: the settings of `other`, and contrast arrays of
        its own into which `other`'s bounds are copied element by element. */
    constructor CopyOf(other: DisplayInfo)
      requires other.Valid()
      ensures fresh(minRgb) && fresh(maxRgb) && Valid()
      ensures mode == other.mode && saturation == other.saturation && hue == other.hue && lightness == other.lightness
      ensures minRgb[..] == other.minRgb[..] && maxRgb[..] == other.maxRgb[..]
      ensures minHue == other.minHue && maxHue == other.maxHue
      ensures minSaturation == other.minSaturation && maxSaturation == other.maxSaturation
      ensures minLightness == other.minLightness && maxLightness == other.maxLightness
    {
      mode, saturation, hue, lightness := other.mode, other.saturation, other.hue, other.lightness;
      minRgb := new byte[3];
      maxRgb := new byte[3];
      minHue, maxHue := other.minHue, other.maxHue;
      minSaturation, maxSaturation := other.minSaturation, other.maxSaturation;
      minLightness, maxLightness := other.minLightness, other.maxLightness;
      new;
      other.CopyBoundsInto(minRgb, maxRgb);
    }
  }
}
