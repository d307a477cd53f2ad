/** HslConvertor: conversion of a byte colour to HSL and back. The HSL value
    ToHsl returns is normalised by the HSL struct's setters (the hue wrapped
    into [0,360), saturation and lightness clamped to [0,1]). */
module HslConversion {
  import opened Common
  import opened ColorSpace

  /** RgbType.RgbPart: the dominant channel, or `Total` for a grey. */
  datatype RgbPart = Blue | Green | Red | Total

  /** `Math.Max(Math.Max(R, G), B)`. */
  function Max3(c: Color): (m: byte)
    ensures m >= c.r && m >= c.g && m >= c.b
    ensures m == c.r || m == c.g || m == c.b
  {
    var rg := if c.r >= c.g then c.r else c.g;
    if rg >= c.b then rg else c.b
  }

  /** `Math.Min(Math.Min(R, G), B)`. */
  function Min3(c: Color): (m: byte)
    ensures m <= c.r && m <= c.g && m <= c.b
    ensures m == c.r || m == c.g || m == c.b
  {
    var rg := if c.r <= c.g then c.r else c.g;
    if rg <= c.b then rg else c.b
  }

  /** GetMaxComponent: `Total` for a grey, otherwise the first of R, G, B
      that equals `max`, with B as the fallback. */
  function MaxComponent(c: Color, min: byte, max: byte): (p: RgbPart)
    ensures p == Total <==> max == min
    ensures p == Red <==> max != min && c.r == max
    ensures p == Green <==> max != min && c.r != max && c.g == max
    ensures p == Blue <==> max != min && c.r != max && c.g != max
  {
    if max == min then Total
    else if c.r == max then Red
    else if c.g == max then Green
    else Blue
  }

  /** With the colour's own extremes, the component chosen is a channel that
      attains the maximum; ties go to R, then G. */
  lemma {:induction false} MaxComponentIsMax(c: Color)
    ensures MaxComponent(c, Min3(c), Max3(c)) == Red ==> c.r == Max3(c)
    ensures MaxComponent(c, Min3(c), Max3(c)) == Green ==> c.g == Max3(c) && c.r < c.g
    ensures MaxComponent(c, Min3(c), Max3(c)) == Blue ==> c.b == Max3(c) && c.r < c.b && c.g < c.b
  {
  }

  /** GetHue: the hue in degrees before wrapping, from the dominant channel's
      sector. `%` is the C# floating-point remainder. */
  function Hue(c: Color, min: byte, max: byte, part: RgbPart): (h: real)
    requires part != Total ==> min < max
    ensures part == Total ==> h == 0.0
  {
    if part == Total then 0.0
    else
      var chroma := (max - min) as real;
      if part == Red then 60.0 * FMod((c.g - c.b) as real / chroma, 6.0)
      else if part == Green then 60.0 * ((c.b - c.r) as real / chroma + 2.0)
      else 60.0 * ((c.r - c.g) as real / chroma + 4.0)
  }

  /** GetLightness: the mean of the extremes as fractions of 255. */
  function Lightness(max: byte, min: byte): (l: real)
    ensures 0.0 <= l <= 1.0
    ensures l == (max + min) as real / 510.0
  {
    var dMax := max as real / 255.0;
    var dMin := min as real / 255.0;
    (dMin + dMax) / 2.0
  }

  /** GetSaturation: zero for a grey, otherwise the spread divided by `2l`
      or `2 - 2l` depending on the lightness. */
  function Saturation(max: byte, min: byte, l: real): (s: real)
    requires min != max ==> 0.0 < l < 1.0
    ensures min == max ==> s == 0.0
  {
    if min == max then 0.0
    else
      var dMax := max as real / 255.0;
      var dMin := min as real / 255.0;
      if l <= 0.5 then (dMax - dMin) / (2.0 * l)
      else (dMax - dMin) / (2.0 - 2.0 * l)
  }

  /** ToHsl: hue, lightness and then saturation (computed from the stored
      lightness), each stored through the matching HSL setter. */
  function ToHsl(c: Color): (hsl: Hsl)
    ensures 0.0 <= hsl.h < 360.0 && 0.0 <= hsl.s <= 1.0 && 0.0 <= hsl.l <= 1.0
    ensures Max3(c) == Min3(c) ==> hsl.h == 0.0 && hsl.s == 0.0
    ensures hsl.l == (Max3(c) + Min3(c)) as real / 510.0
  {
    var max := Max3(c);
    var min := Min3(c);
    var part := MaxComponent(c, min, max);
    var h := WrapHue(Hue(c, min, max, part));
    var l := ClampReal(Lightness(max, min), 0.0, 1.0);
    var s := ClampReal(Saturation(max, min, l), 0.0, 1.0);
    Hsl(h, s, l)
  }

  /** The chroma ToRgb derives from lightness and saturation. */
  function Chroma(l: real, s: real): (c: real)
    ensures 0.0 <= l <= 1.0 && 0.0 <= s <= 1.0 ==>
      0.0 <= c && 0.0 <= l - 0.5 * c && l + 0.5 * c <= 1.0
  {
    ChromaWithin(l, s, 1.0 - Abs(2.0 * l - 1.0));
    (1.0 - Abs(2.0 * l - 1.0)) * s
  }

  /** The bounds of Chroma, for `k` the factor it scales the saturation by. */
  lemma ChromaWithin(l: real, s: real, k: real)
    requires k == 1.0 - Abs(2.0 * l - 1.0)
    ensures 0.0 <= l <= 1.0 && 0.0 <= s <= 1.0 ==>
      0.0 <= k * s && 0.0 <= l - 0.5 * (k * s) && l + 0.5 * (k * s) <= 1.0
  {
    if 0.0 <= l <= 1.0 && 0.0 <= s <= 1.0 {
      ScaleWithin(k, s, k * s);
      OffsetWithin(l, k, k * s);
    }
  }

  /** The second-largest channel offset for sector position `h`. */
  function Secondary(h: real, c: real): (x: real)
    ensures 0.0 <= h && 0.0 <= c ==> 0.0 <= x <= c
  {
    var f := 1.0 - Abs(FMod(h, 2.0) - 1.0);
    if 0.0 <= h && 0.0 <= c then
      ScaleWithin(c, f, c * f);
      c * f
    else c * f
  }

  /** The six-sector table of ToRgb; outside [0,6) every channel is 0. */
  function Sector(h: real, c: real, x: real): (rgb: Rgb)
    ensures !(0.0 <= h < 6.0) ==> rgb == Rgb(0.0, 0.0, 0.0)
  {
    if 0.0 <= h < 1.0 then Rgb(c, x, 0.0)
    else if 1.0 <= h < 2.0 then Rgb(x, c, 0.0)
    else if 2.0 <= h < 3.0 then Rgb(0.0, c, x)
    else if 3.0 <= h < 4.0 then Rgb(0.0, x, c)
    else if 4.0 <= h < 5.0 then Rgb(x, 0.0, c)
    else if 5.0 <= h < 6.0 then Rgb(c, 0.0, x)
    else Rgb(0.0, 0.0, 0.0)
  }

  /** The channel fractions ToRgb hands to the RGB constructor. */
  function Channels(hsl: Hsl): (rgb: Rgb)
    ensures var c := Chroma(hsl.l, hsl.s);
      var lo := hsl.l - 0.5 * c;
      var hi := hsl.l + 0.5 * c;
      0.0 <= hsl.h < 360.0 && 0.0 <= c ==>
        lo <= rgb.r <= hi && lo <= rgb.g <= hi && lo <= rgb.b <= hi &&
        (rgb.r == hi || rgb.g == hi || rgb.b == hi) &&
        (rgb.r == lo || rgb.g == lo || rgb.b == lo)
  {
    var c := Chroma(hsl.l, hsl.s);
    var h := hsl.h / 60.0;
    var rgb := Sector(h, c, Secondary(h, c));
    var m := hsl.l - 0.5 * c;
    Rgb(rgb.r + m, rgb.g + m, rgb.b + m)
  }

  /** ToRgb: the sector table shifted by `l - c/2`, quantized, with the given
      alpha. */
  function ToRgb(hsl: Hsl, a: byte): (color: Color)
    requires 0.0 <= hsl.s <= 1.0 && 0.0 <= hsl.l <= 1.0
    ensures color.a == a
  {
    ChannelsInRange(hsl);
    RgbToColor(Channels(hsl), a)
  }

  /** For saturation and lightness in [0,1] every channel lies in [0,1]. */
  lemma {:induction false} ChannelsInRange(hsl: Hsl)
    requires 0.0 <= hsl.s <= 1.0 && 0.0 <= hsl.l <= 1.0
    ensures var rgb := Channels(hsl);
      0.0 <= rgb.r <= 1.0 && 0.0 <= rgb.g <= 1.0 && 0.0 <= rgb.b <= 1.0
  {
    var c := Chroma(hsl.l, hsl.s);
    var h := hsl.h / 60.0;
    SectorWithin(h, c, Secondary(h, c));
  }

  /** The offset `l - c/2` ToRgb adds is non-negative and leaves room for
      the chroma below 1. */
  lemma OffsetWithin(l: real, k: real, c: real)
    requires 0.0 <= l <= 1.0 && k == 1.0 - Abs(2.0 * l - 1.0) && 0.0 <= c <= k
    ensures 0.0 <= l - 0.5 * c && l - 0.5 * c + c <= 1.0
  {
  }

  /** Every entry of the sector table lies in [0,c] when `x` does. */
  lemma SectorWithin(h: real, c: real, x: real)
    requires 0.0 <= c && (0.0 <= h ==> 0.0 <= x <= c)
    ensures var rgb := Sector(h, c, x);
      0.0 <= rgb.r <= c && 0.0 <= rgb.g <= c && 0.0 <= rgb.b <= c
  {
  }

  /** `v = k * s` with `s` in [0,1] and `k` non-negative lies in [0,k]. */
  lemma ScaleWithin(k: real, s: real, v: real)
    requires 0.0 <= k && 0.0 <= s <= 1.0 && v == k * s
    ensures 0.0 <= v <= k
  {
    assert k - v == k * (1.0 - s);
  }

  /** Saturation is in (0,1] for a colour that is not grey, so the S setter
      keeps it, and the chroma ToRgb rebuilds from it is the spread of the
      channels. */
  lemma {:induction false} ChromaRecovered(max: byte, min: byte)
    requires min < max
    ensures var l := Lightness(max, min);
      0.0 < Saturation(max, min, l) <= 1.0
      && Chroma(l, Saturation(max, min, l)) == (max - min) as real / 255.0
  {
    var l := Lightness(max, min);
    var s := Saturation(max, min, l);
    var d := (max - min) as real / 255.0;
    assert max as real / 255.0 - min as real / 255.0 == d;
    if l <= 0.5 {
      var y := 2.0 * l;
      assert y == (max + min) as real / 255.0;
      QuotientAtMostOne(d, y, s);
      ChromaOf(l, s, y);
    } else {
      var y := 2.0 - 2.0 * l;
      assert y == (510 - max - min) as real / 255.0;
      QuotientAtMostOne(d, y, s);
      ChromaOf(l, s, y);
    }
  }

  /** Chroma is the saturation scaled by `y = 1 - |2l - 1|`. */
  lemma ChromaOf(l: real, s: real, y: real)
    requires y == 1.0 - Abs(2.0 * l - 1.0)
    ensures Chroma(l, s) == y * s
  {
  }

  /** `s = d / y` with `0 < d <= y` lies in (0,1], and `y * s` is `d`. */
  lemma QuotientAtMostOne(d: real, y: real, s: real)
    requires 0.0 < d <= y && s == d / y
    ensures 0.0 < s <= 1.0 && y * s == d
  {
    assert s * y == d;
    assert (1.0 - s) * y == y - d;
    SignOfProduct(s, y);
    SignOfProduct(1.0 - s, y);
  }

  /** For `-6 < x < 6` the remainder by 6 is `x` itself. */
  lemma FModSmall(x: real)
    requires -6.0 < x < 6.0
    ensures FMod(x, 6.0) == x
  {
    assert Trunc(x / 6.0) == 0;
  }

  /** For `x` in [2k, 2k+2) the remainder by 2 is `x - 2k`. */
  lemma FModTwo(x: real, k: int)
    requires 0 <= k && 2.0 * k as real <= x < 2.0 * k as real + 2.0
    ensures FMod(x, 2.0) == x - 2.0 * k as real
  {
    assert Trunc(x / 2.0) == k;
  }

  /** The ratio `D / C` of a channel difference to the spread. */
  lemma {:induction false} Ratio(chroma: int, d: int)
    requires 0 < chroma && -chroma <= d <= chroma
    ensures var t := d as real / chroma as real;
      -1.0 <= t <= 1.0 && (t < 0.0 <==> d < 0) && (t == 1.0 <==> d == chroma) && (t == -1.0 <==> d == -chroma)
      && (chroma as real / 255.0) * t == d as real / 255.0
  {
    var t := d as real / chroma as real;
    var k := chroma as real;
    assert t * k == d as real;
    assert (k - d as real) == (1.0 - t) * k;
    assert (k + d as real) == (1.0 + t) * k;
    SignOfProduct(1.0 - t, k);
    SignOfProduct(1.0 + t, k);
    SignOfProduct(t, k);
    assert (k / 255.0) * t == (t * k) / 255.0;
  }

  /** The sector position `h / 60` ToHsl gives a red-dominant colour: the
      ratio of green less blue to the spread, moved up by a whole turn
      (6 sectors) when negative. */
  lemma {:induction false} HuePositionRed(c: Color)
    requires Min3(c) < Max3(c) && c.r == Max3(c)
    ensures var t := (c.g - c.b) as real / (Max3(c) - Min3(c)) as real;
      ToHsl(c).h / 60.0 == if c.g >= c.b then t else t + 6.0
  {
    var spread := Max3(c) - Min3(c);
    var d := c.g - c.b;
    Ratio(spread, d);
    var t := d as real / spread as real;
    FModSmall(t);
    assert Hue(c, Min3(c), Max3(c), Red) == 60.0 * t;
    if d < 0 {
      WrapHueUnique(60.0 * t, 60.0 * t + 360.0, 1);
    }
  }

  /** The sector position of a green-dominant colour: 2 plus the ratio of
      blue less red to the spread. */
  lemma {:induction false} HuePositionGreen(c: Color)
    requires Min3(c) < Max3(c) && c.r != Max3(c) && c.g == Max3(c)
    ensures ToHsl(c).h / 60.0 == (c.b - c.r) as real / (Max3(c) - Min3(c)) as real + 2.0
  {
    Ratio(Max3(c) - Min3(c), c.b - c.r);
  }

  /** The sector position of a blue-dominant colour: 4 plus the ratio of red
      less green to the spread. */
  lemma {:induction false} HuePositionBlue(c: Color)
    requires Min3(c) < Max3(c) && c.r != Max3(c) && c.g != Max3(c)
    ensures ToHsl(c).h / 60.0 == (c.r - c.g) as real / (Max3(c) - Min3(c)) as real + 4.0
  {
    Ratio(Max3(c) - Min3(c), c.r - c.g);
  }

  /** In the first half of sectors `2k` and `2k+1` the secondary offset is
      the ratio's share of the chroma. */
  lemma {:induction false} SecondaryRising(spread: int, d: int, h: real, k: int)
    requires 0 <= d <= spread && 0 < spread && 0 <= k
    requires h == d as real / spread as real + 2.0 * k as real
    ensures 2.0 * k as real <= h <= 2.0 * k as real + 1.0
    ensures h == 2.0 * k as real + 1.0 <==> d == spread
    ensures Secondary(h, spread as real / 255.0) == d as real / 255.0
  {
    Ratio(spread, d);
    FModTwo(h, k);
  }

  /** In the second half of sectors `2k` and `2k+1` the secondary offset is
      the (negated) ratio's share of the chroma. */
  lemma {:induction false} SecondaryFalling(spread: int, d: int, h: real, k: int)
    requires -spread <= d < 0 && 0 < spread && 0 <= k
    requires h == d as real / spread as real + 2.0 * k as real + 2.0
    ensures 2.0 * k as real + 1.0 <= h < 2.0 * k as real + 2.0
    ensures Secondary(h, spread as real / 255.0) == -d as real / 255.0
  {
    Ratio(spread, d);
    FModTwo(h, k);
    var t := d as real / spread as real;
    assert Secondary(h, spread as real / 255.0) == (spread as real / 255.0) * -t;
  }

  /** The channel fractions ToRgb computes from ToHsl(c) are c's own. */
  lemma {:induction false} ChannelsRecovered(c: Color)
    ensures Channels(ToHsl(c)) == Rgb(c.r as real / 255.0, c.g as real / 255.0, c.b as real / 255.0)
  {
    var max := Max3(c);
    var min := Min3(c);
    if min == max {
      var hsl := ToHsl(c);
      assert Chroma(hsl.l, hsl.s) == 0.0;
    } else if c.r == max {
      RedRecovered(c);
    } else if c.g == max {
      GreenRecovered(c);
    } else {
      BlueRecovered(c);
    }
  }

  /** For a colour that is not grey, ToRgb rebuilds the chroma as the
      spread of the channels and the offset as the smallest channel. */
  lemma {:induction false} ChromaAndOffset(c: Color)
    requires Min3(c) < Max3(c)
    ensures var hsl := ToHsl(c);
      Chroma(hsl.l, hsl.s) == (Max3(c) - Min3(c)) as real / 255.0 &&
      hsl.l - 0.5 * Chroma(hsl.l, hsl.s) == Min3(c) as real / 255.0
  {
    ChromaRecovered(Max3(c), Min3(c));
  }

  /** ChannelsRecovered for a red-dominant colour (sectors 0 and 5). */
  lemma {:induction false} RedRecovered(c: Color)
    requires Min3(c) < Max3(c) && c.r == Max3(c)
    ensures Channels(ToHsl(c)) == Rgb(c.r as real / 255.0, c.g as real / 255.0, c.b as real / 255.0)
  {
    ChromaAndOffset(c);
    var spread := Max3(c) - Min3(c);
    var h := ToHsl(c).h / 60.0;
    HuePositionRed(c);
    if c.g >= c.b {
      assert Min3(c) == c.b;
      SecondaryRising(spread, c.g - c.b, h, 0);
    } else {
      assert Min3(c) == c.g;
      SecondaryFalling(spread, c.g - c.b, h, 2);
    }
  }

  /** ChannelsRecovered for a green-dominant colour (sectors 1 and 2). */
  lemma {:induction false} GreenRecovered(c: Color)
    requires Min3(c) < Max3(c) && c.r != Max3(c) && c.g == Max3(c)
    ensures Channels(ToHsl(c)) == Rgb(c.r as real / 255.0, c.g as real / 255.0, c.b as real / 255.0)
  {
    ChromaAndOffset(c);
    var spread := Max3(c) - Min3(c);
    var h := ToHsl(c).h / 60.0;
    HuePositionGreen(c);
    if c.b < c.r {
      assert Min3(c) == c.b;
      SecondaryFalling(spread, c.b - c.r, h, 0);
    } else {
      assert Min3(c) == c.r;
      SecondaryRising(spread, c.b - c.r, h, 1);
    }
  }

  /** ChannelsRecovered for a blue-dominant colour (sectors 3 and 4). */
  lemma {:induction false} BlueRecovered(c: Color)
    requires Min3(c) < Max3(c) && c.r != Max3(c) && c.g != Max3(c)
    ensures Channels(ToHsl(c)) == Rgb(c.r as real / 255.0, c.g as real / 255.0, c.b as real / 255.0)
  {
    ChromaAndOffset(c);
    var spread := Max3(c) - Min3(c);
    var h := ToHsl(c).h / 60.0;
    HuePositionBlue(c);
    if c.r < c.g {
      assert Min3(c) == c.r;
      SecondaryFalling(spread, c.r - c.g, h, 1);
    } else {
      assert Min3(c) == c.g;
      SecondaryRising(spread, c.r - c.g, h, 2);
    }
  }

  /** Converting a colour to HSL and back gives the same colour (over exact
      arithmetic). */
  lemma {:induction false} RoundTrip(c: Color)
    ensures ToRgb(ToHsl(c), c.a) == c
  {
    ChannelsRecovered(c);
    QuantizeFraction(c.r);
    QuantizeFraction(c.g);
    QuantizeFraction(c.b);
  }

  /** With zero saturation every channel is the lightness, whatever the hue. */
  lemma {:induction false} GreyWhenUnsaturated(h: real, l: real, a: byte)
    requires 0.0 <= l <= 1.0
    ensures var c := ToRgb(Hsl(h, 0.0, l), a);
      c.r == Quantize(l) && c.g == Quantize(l) && c.b == Quantize(l)
  {
    assert Chroma(l, 0.0) == 0.0;
    assert Secondary(h / 60.0, 0.0) == 0.0;
  }
}
