/** The HSL and RGB structs: colour components held as reals, with property
    setters that wrap the hue into [0,360) and clamp the other components to
    [0,1], and the conversion of RGB fractions to a byte colour. */
module ColorSpace {
  import opened Common

  /** The value of an HSL struct: hue in degrees, saturation and lightness. */
  datatype Hsl = Hsl(h: real, s: real, l: real)

  /** The value of an RGB struct: three channel fractions. */
  datatype Rgb = Rgb(r: real, g: real, b: real)

  function Abs(x: real): (r: real)
    ensures 0.0 <= r && (r == x || r == -x)
  {
    if x < 0.0 then -x else x
  }

  /** `d` is a whole number of turns of 360 degrees. */
  predicate WholeTurns(d: real)
  {
    (d / 360.0).Floor as real == d / 360.0
  }

  /** The angle in [0,360) that differs from `v` by whole turns. */
  function WrapHue(v: real): (h: real)
    ensures 0.0 <= h < 360.0
    ensures WholeTurns(h - v)
    ensures 0.0 <= v < 360.0 ==> h == v
  {
    var q := v / 360.0;
    var turns := q.Floor;
    assert turns as real <= q < turns as real + 1.0;
    var h := v - 360.0 * turns as real;
    assert h == 360.0 * (q - turns as real);
    assert (h - v) / 360.0 == -turns as real;
    assert 0.0 <= v < 360.0 ==> 0.0 <= q < 1.0 && turns == 0;
    h
  }

  /** Any angle in [0,360) that is `v` plus whole turns is the wrapped `v`. */
  lemma {:induction false} WrapHueUnique(v: real, h: real, turns: int)
    requires 0.0 <= h < 360.0 && h == v + 360.0 * turns as real
    ensures h == WrapHue(v)
  {
    assert v / 360.0 == h / 360.0 - turns as real;
    assert 0.0 <= h / 360.0 < 1.0;
    assert (v / 360.0).Floor == -turns;
  }

  /** `(byte)(x * 255 + 0.5)`: for a fraction in [0,1], the nearest byte to
      `x * 255`, halves rounding up. */
  function Quantize(x: real): (b: byte)
    requires 0.0 <= x <= 1.0
    ensures x * 255.0 - 0.5 < b as real <= x * 255.0 + 0.5
  {
    Trunc(x * 255.0 + 0.5)
  }

  /** Quantizing a byte's own fraction gives the byte back. */
  lemma {:induction false} QuantizeFraction(v: byte)
    ensures Quantize(v as real / 255.0) == v
  {
    var b := Quantize(v as real / 255.0);
    assert v as real / 255.0 * 255.0 == v as real;
  }

  /** The ends of the range map to the ends of the byte range. */
  lemma {:induction false} QuantizeEnds()
    ensures Quantize(0.0) == 0 && Quantize(1.0) == 255
  {
    assert Trunc(0.5) == 0;
    assert Trunc(255.5) == 255;
  }

  /** Quantizing preserves order. */
  lemma {:induction false} QuantizeMonotone(x: real, y: real)
    requires 0.0 <= x <= y <= 1.0
    ensures Quantize(x) <= Quantize(y)
  {
    TruncMonotone(x * 255.0 + 0.5, y * 255.0 + 0.5);
  }

  /** RGB.ToColor: each channel quantized, the alpha passed through. The
      byte Min/Max around each cast cannot change a byte. */
  function RgbToColor(rgb: Rgb, a: byte): (c: Color)
    requires 0.0 <= rgb.r <= 1.0 && 0.0 <= rgb.g <= 1.0 && 0.0 <= rgb.b <= 1.0
    ensures c.a == a
    ensures c.r == Quantize(rgb.r) && c.g == Quantize(rgb.g) && c.b == Quantize(rgb.b)
  {
    Color(a, Quantize(rgb.r), Quantize(rgb.g), Quantize(rgb.b))
  }

  /** The HSL struct, whose setters normalise what they store. */
  class HslStruct {
    var h: real
    var s: real
    var l: real

    function Value(): (v: Hsl)
      reads this
      ensures v.h == h && v.s == s && v.l == l
    {
      Hsl(h, s, l)
    }

    /** The constructor stores its arguments raw, bypassing the setters. */
    constructor (h0: real, s0: real, l0: real)
      ensures Value() == Hsl(h0, s0, l0)
    {
      h, s, l := h0, s0, l0;
    }

    /** The H setter: adds 360 while negative, then subtracts 360 while at
        least 360. */
    method SetH(value: real)
      modifies this
      ensures h == WrapHue(value) && s == old(s) && l == old(l)
    {
      var x := value;
      ghost var turns: int := 0;
      while x < 0.0
        invariant x == value + 360.0 * turns as real
        invariant value < 0.0 ==> x < 360.0
        invariant 0.0 <= value ==> x == value
        decreases -x.Floor
      {
        x := x + 360.0;
        turns := turns + 1;
      }
      while x >= 360.0
        invariant 0.0 <= x == value + 360.0 * turns as real
        decreases x.Floor
      {
        x := x - 360.0;
        turns := turns - 1;
      }
      WrapHueUnique(value, x, turns);
      h := x;
    }

    /** The S setter: clamps to [0,1]. */
    method SetS(value: real)
      modifies this
      ensures s == ClampReal(value, 0.0, 1.0) && h == old(h) && l == old(l)
    {
      var x := value;
      if x < 0.0 {
        x := 0.0;
      }
      if x > 1.0 {
        x := 1.0;
      }
      s := x;
    }

    /** The L setter: clamps to [0,1]. */
    method SetL(value: real)
      modifies this
      ensures l == ClampReal(value, 0.0, 1.0) && h == old(h) && s == old(s)
    {
      var x := value;
      if x < 0.0 {
        x := 0.0;
      }
      if x > 1.0 {
        x := 1.0;
      }
      l := x;
    }
  }

  /** The RGB struct, whose setters clamp every channel to [0,1]. */
  class RgbStruct {
    var r: real
    var g: real
    var b: real

    function Value(): (v: Rgb)
      reads this
      ensures v.r == r && v.g == g && v.b == b
    {
      Rgb(r, g, b)
    }

    /** The constructor stores its arguments raw, bypassing the clamps. */
    constructor (r0: real, g0: real, b0: real)
      ensures Value() == Rgb(r0, g0, b0)
    {
      r, g, b := r0, g0, b0;
    }

    method SetR(value: real)
      modifies this
      ensures r == ClampReal(value, 0.0, 1.0) && g == old(g) && b == old(b)
    {
      var x := value;
      if x < 0.0 {
        x := 0.0;
      }
      if x > 1.0 {
        x := 1.0;
      }
      r := x;
    }

    method SetG(value: real)
      modifies this
      ensures g == ClampReal(value, 0.0, 1.0) && r == old(r) && b == old(b)
    {
      var x := value;
      if x < 0.0 {
        x := 0.0;
      }
      if x > 1.0 {
        x := 1.0;
      }
      g := x;
    }

    method SetB(value: real)
      modifies this
      ensures b == ClampReal(value, 0.0, 1.0) && r == old(r) && g == old(g)
    {
      var x := value;
      if x < 0.0 {
        x := 0.0;
      }
      if x > 1.0 {
        x := 1.0;
      }
      b := x;
    }
  }
}
