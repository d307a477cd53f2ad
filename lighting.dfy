/** LightingUtil: an ambient share of a colour plus a light vector, clamped
    to [0,1] per channel and scaled back to a byte. */
module Lighting {
  import opened Common
  import opened PaletteMaps
  import opened Palettes

  /** One channel: `(byte)(clamp01(ambient * c / 255 + lite) * 255)`. */
  function LitChannel(c: byte, lite: real, ambient: real): (v: byte)
    ensures var x := ClampReal(ambient * c as real / 255.0 + lite, 0.0, 1.0);
      v as real <= x * 255.0 < v as real + 1.0
  {
    var x := ClampReal(ambient * c as real / 255.0 + lite, 0.0, 1.0);
    assert x * 255.0 <= 255.0;
    Trunc(x * 255.0)
  }

  /** The colour overload: R, G and B lit by the matching light component,
      the alpha passed through. */
  function CalculateLight(color: Color, lite: Vec3, ambient: real): (c: Color)
    ensures c.a == color.a
  {
    Color(color.a, LitChannel(color.r, lite.x, ambient), LitChannel(color.g, lite.y, ambient),
      LitChannel(color.b, lite.z, ambient))
  }

  /** The depth overload: the palette's colour at `depth`, lit. */
  method CalculateLightAtDepth(depth: int, palette: Palette, lite: Vec3, ambient: real) returns (c: Color)
    ensures c == CalculateLight(ColorAt(palette.points, depth), lite, ambient)
  {
    var rgb := palette.GetColor(depth);
    c := CalculateLight(rgb, lite, ambient);
  }

  /** No ambient light and no light vector give black, whatever the colour. */
  lemma {:induction false} DarkIsBlack(color: Color)
    ensures var c := CalculateLight(color, ZeroVec, 0.0);
      c.r == 0 && c.g == 0 && c.b == 0 && c.a == color.a
  {
    assert LitChannel(color.r, 0.0, 0.0) == 0;
    assert LitChannel(color.g, 0.0, 0.0) == 0;
    assert LitChannel(color.b, 0.0, 0.0) == 0;
  }

  /** Full ambient light and no light vector leave the colour unchanged. */
  lemma {:induction false} FullAmbientIsIdentity(color: Color)
    ensures CalculateLight(color, ZeroVec, 1.0) == color
  {
    ChannelUnlit(color.r);
    ChannelUnlit(color.g);
    ChannelUnlit(color.b);
  }

  lemma ChannelUnlit(v: byte)
    ensures LitChannel(v, 0.0, 1.0) == v
  {
    var x := 1.0 * v as real / 255.0 + 0.0;
    assert x * 255.0 == v as real;
  }

  /** A channel whose lit value reaches 1 saturates at 255. */
  lemma {:induction false} ChannelSaturates(c: byte, lite: real, ambient: real)
    requires ambient * c as real / 255.0 + lite >= 1.0
    ensures LitChannel(c, lite, ambient) == 255
  {
  }

  /** More light never darkens a channel. */
  lemma {:induction false} ChannelMonotone(c: byte, lite1: real, lite2: real, ambient: real)
    requires lite1 <= lite2
    ensures LitChannel(c, lite1, ambient) <= LitChannel(c, lite2, ambient)
  {
    var base := ambient * c as real / 255.0;
    var x1 := ClampReal(base + lite1, 0.0, 1.0);
    var x2 := ClampReal(base + lite2, 0.0, 1.0);
    assert x1 <= x2;
    TruncMonotone(x1 * 255.0, x2 * 255.0);
  }

  /** Lighting is monotone in each light component: a brighter light vector
      gives channels at least as bright. */
  lemma {:induction false} LightMonotone(color: Color, l1: Vec3, l2: Vec3, ambient: real)
    requires l1.x <= l2.x && l1.y <= l2.y && l1.z <= l2.z
    ensures var c1 := CalculateLight(color, l1, ambient);
      var c2 := CalculateLight(color, l2, ambient);
      c1.r <= c2.r && c1.g <= c2.g && c1.b <= c2.b
  {
    ChannelMonotone(color.r, l1.x, l2.x, ambient);
    ChannelMonotone(color.g, l1.y, l2.y, ambient);
    ChannelMonotone(color.b, l1.z, l2.z, ambient);
  }

  /** At an anchor's own index the depth overload lights that anchor's colour. */
  lemma {:induction false} LightAtAnchor(m: PointMap, depth: int, lite: Vec3, ambient: real)
    requires depth in m
    ensures CalculateLight(ColorAt(m, depth), lite, ambient) == CalculateLight(m[depth].color, lite, ambient)
  {
  }
}
