/** RawLightedImage: a raster that holds either a palette index and a light
    vector per pixel (depth mode) or a colour per pixel (colour mode), and
    renders itself into 32-bit BGRA bytes after an optional contrast
    stretch or HSL remap. */
module RawImages {
  import opened Common
  import opened ColorSpace
  import opened HslConversion
  import opened PaletteMaps
  import opened Palettes
  import opened Display
  import opened RenderPipeline
  import opened Raster
  import opened FlatArrays
  import opened Scans
  import Lighting

  /** ImageMode: what the pixels hold. */
  datatype ImageMode = Depth | ColorMode

  /** `Color.Empty`, the value of a new colour array's elements. */
  const EmptyColor := Color(0, 0, 0, 0)

  function AtLeastOne(v: int): (r: int)
    ensures 1 <= r && (1 <= v ==> r == v) && (v < 1 ==> r == 1)
  {
    if v < 1 then 1 else v
  }

  /** The checks the depth SetBlock makes before copying, in order: mode,
      height, depth, then the two column bounds. */
  function DepthBlockCheck(mode: ImageMode, width: int, height: int, depth: int,
                           fromWidth: int, toWidth: int, h: int, d: int): (o: Outcome)
    ensures o == Pass <==>
      mode == Depth && h == height && d == depth && 0 <= fromWidth <= width && 0 <= toWidth <= width
    ensures mode != Depth ==> o == Fail(ModeMismatch)
    ensures mode == Depth && h != height ==> o == Fail(HeightMismatch)
    ensures mode == Depth && h == height && d != depth ==> o == Fail(DepthMismatch)
  {
    if mode != Depth then Fail(ModeMismatch)
    else if h != height then Fail(HeightMismatch)
    else if d != depth then Fail(DepthMismatch)
    else if fromWidth < 0 || fromWidth > width then Fail(FromWidthOutOfRange)
    else if toWidth < 0 || toWidth > width then Fail(ToWidthOutOfRange)
    else Pass
  }

  /** The checks the colour SetBlock makes: mode, height, column bounds. */
  function ColorBlockCheck(mode: ImageMode, width: int, height: int, fromWidth: int, toWidth: int, h: int): (o: Outcome)
    ensures o == Pass <==> mode == ColorMode && h == height && 0 <= fromWidth <= width && 0 <= toWidth <= width
    ensures mode != ColorMode ==> o == Fail(ModeMismatch)
    ensures mode == ColorMode && h != height ==> o == Fail(HeightMismatch)
  {
    if mode != ColorMode then Fail(ModeMismatch)
    else if h != height then Fail(HeightMismatch)
    else if fromWidth < 0 || fromWidth > width then Fail(FromWidthOutOfRange)
    else if toWidth < 0 || toWidth > width then Fail(ToWidthOutOfRange)
    else Pass
  }

  /** A block ending at `toWidth == width` passes SetBlock's own checks, and
      the copy then fails for lack of room in the destination whenever the
      source holds the columns asked for. */
  lemma {:induction false} BlockToWidthOverruns(width: int, height: int, depth: int, fromWidth: int, srcLength: int)
    requires 1 <= height && 0 <= fromWidth <= width
    requires (width - fromWidth + 1) * height <= srcLength
    ensures DepthBlockCheck(Depth, width, height, depth, fromWidth, width, height, depth) == Pass
    ensures ColorBlockCheck(ColorMode, width, height, fromWidth, width, height) == Pass
    ensures CopyCheck(srcLength, fromWidth * height, (width - fromWidth + 1) * height, width * height)
      == Fail(DestinationTooShort)
  {
    LastColumnOverruns(srcLength, fromWidth, width, height);
  }

  /** Writes a colour's four bytes at `pos` in the order B, G, R, A. */
  method WritePixel(buf: array<byte>, pos: int, c: Color)
    requires 0 <= pos && pos + 4 <= buf.Length
    modifies buf
    ensures forall k :: 0 <= k < buf.Length ==>
      buf[k] == if pos <= k < pos + 4 then ByteOf(c, k - pos) else old(buf[k])
  {
    buf[pos] := c.b;
    buf[pos + 1] := c.g;
    buf[pos + 2] := c.r;
    buf[pos + 3] := c.a;
  }

  /** What GetBitmap does to each pixel of an image whose source colours
      are `g`: the routine the display settings select, with the HSL remaps
      built from the scans of the flagged components. */
  function ChosenProcess(info: DisplayInfo, g: Grid, height: int): (p: Process)
    reads info, info.minRgb, info.maxRgb
    requires info.Valid() && IsGrid(g, |g|, height)
    requires info.mode == Contrast ==> StretchBounds(info.minRgb[..], info.maxRgb[..])
    ensures ProcessOk(p)
    ensures info.mode == Off ==> p == Plain
    ensures info.mode == Contrast ==> p == Stretch(info.minRgb[..], info.maxRgb[..])
    ensures info.mode == HslMode && !info.hue && !info.saturation && !info.lightness ==> p == Plain
  {
    match ChooseRoute(info.mode, info.hue, info.saturation, info.lightness)
    case PlainRoute => Plain
    case ContrastRoute => Stretch(info.minRgb[..], info.maxRgb[..])
    case HslRoute(hue, sat, light) =>
      var t := Targets(info.minHue, info.maxHue, info.minSaturation, info.maxSaturation,
        info.minLightness, info.maxLightness);
      var huePr := if hue then MinMax(g, HueC, height) else ScanStart(HueC);
      var satPr := if sat then MinMax(g, SatC, height) else ScanStart(SatC);
      var lightPr := if light then MinMax(g, LightC, height) else ScanStart(LightC);
      var r := HslRemaps(hue, sat, light, t, huePr, satPr, lightPr);
      HslRemap(r.0, r.1, r.2)
  }

  class RawLightedImage {
    var width: int
    var height: int
    var depth: int
    var mode: ImageMode
    var pixelValues: array2<int>
    var lighting: array2<Vec3>
    var colorValues: array2?<Color>

    /** A depth image has a palette index and a light per pixel; a colour
        image has a colour per pixel. */
    predicate Valid()
      reads this
    {
      1 <= width && 1 <= height &&
      (mode == Depth ==>
        1 <= depth &&
        pixelValues.Length0 == width && pixelValues.Length1 == height &&
        lighting.Length0 == width && lighting.Length1 == height) &&
      (mode == ColorMode ==>
        colorValues != null && colorValues.Length0 == width && colorValues.Length1 == height)
    }

    /** The depth constructor: width, height and depth below 1 become 1;
        every pixel is index 0 with the zero light vector. */
    constructor DepthImage(w: int, h: int, d: int)
      ensures Valid() && mode == Depth
      ensures width == AtLeastOne(w) && height == AtLeastOne(h) && depth == AtLeastOne(d)
      ensures fresh(pixelValues) && fresh(lighting) && colorValues == null
      ensures forall x, y :: 0 <= x < width && 0 <= y < height ==> pixelValues[x, y] == 0
      ensures forall x, y :: 0 <= x < width && 0 <= y < height ==> lighting[x, y] == ZeroVec
    {
      mode := Depth;
      width, height, depth := AtLeastOne(w), AtLeastOne(h), AtLeastOne(d);
      pixelValues := new int[AtLeastOne(w), AtLeastOne(h)];
      lighting := new Vec3[AtLeastOne(w), AtLeastOne(h)];
      colorValues := null;
      new;
      var _ := SetAllPixels(0);
      var _ := SetAllLighting(ZeroVec);
    }

    /** The colour constructor: width and height below 1 become 1; every
        colour is `Color.Empty`; the depth arrays are 1 x 1 and the depth
        stays 0. */
    constructor ColorImage(w: int, h: int)
      ensures Valid() && mode == ColorMode && depth == 0
      ensures width == AtLeastOne(w) && height == AtLeastOne(h)
      ensures colorValues != null && fresh(colorValues) && fresh(pixelValues) && fresh(lighting)
      ensures forall x, y :: 0 <= x < width && 0 <= y < height ==> colorValues[x, y] == EmptyColor
      ensures pixelValues.Length0 == 1 && pixelValues.Length1 == 1 && pixelValues[0, 0] == 0
      ensures lighting.Length0 == 1 && lighting.Length1 == 1 && lighting[0, 0] == ZeroVec
    {
      mode := ColorMode;
      width, height, depth := AtLeastOne(w), AtLeastOne(h), 0;
      pixelValues := new int[1, 1]((_, _) => 0);
      lighting := new Vec3[1, 1]((_, _) => ZeroVec);
      colorValues := new Color[AtLeastOne(w), AtLeastOne(h)]((_, _) => EmptyColor);
    }

    /** A new image of the same mode and size with its own arrays holding
        the same values. */
    method Clone() returns (copy: RawLightedImage)
      requires Valid()
      ensures fresh(copy) && copy.Valid() && copy.mode == mode
      ensures copy.width == width && copy.height == height
      ensures copy.depth == if mode == Depth then depth else 0
      ensures mode == Depth ==>
        fresh(copy.pixelValues) && fresh(copy.lighting) && copy.colorValues == null &&
        (forall x, y :: 0 <= x < width && 0 <= y < height ==>
          copy.pixelValues[x, y] == pixelValues[x, y] && copy.lighting[x, y] == lighting[x, y])
      ensures mode == ColorMode ==>
        copy.colorValues != null && fresh(copy.colorValues) &&
        (forall x, y :: 0 <= x < width && 0 <= y < height ==> copy.colorValues[x, y] == colorValues[x, y])
    {
      if mode == Depth {
        copy := new RawLightedImage.DepthImage(width, height, depth);
        CopyDepthInto(copy.pixelValues, copy.lighting);
      } else {
        copy := new RawLightedImage.ColorImage(width, height);
        CopyColorsInto(copy.colorValues);
      }
    }

    /** Clone's depth loop: copies every index and light into `pv` and `lv`. */
    method CopyDepthInto(pv: array2<int>, lv: array2<Vec3>)
      requires Valid() && mode == Depth && pv != pixelValues && lv != lighting
      requires pv.Length0 == width && pv.Length1 == height && lv.Length0 == width && lv.Length1 == height
      modifies pv, lv
      ensures forall x, y :: 0 <= x < width && 0 <= y < height ==>
        pv[x, y] == pixelValues[x, y] && lv[x, y] == lighting[x, y]
    {
      for x := 0 to width
        invariant forall i, j :: 0 <= i < x && 0 <= j < height ==>
          pv[i, j] == pixelValues[i, j] && lv[i, j] == lighting[i, j]
      {
        for y := 0 to height
          invariant forall i, j :: 0 <= i < x && 0 <= j < height ==>
            pv[i, j] == pixelValues[i, j] && lv[i, j] == lighting[i, j]
          invariant forall j :: 0 <= j < y ==> pv[x, j] == pixelValues[x, j] && lv[x, j] == lighting[x, j]
        {
          pv[x, y] := pixelValues[x, y];
          lv[x, y] := lighting[x, y];
        }
      }
    }

    /** Clone's colour loop: copies every colour into `cv`. */
    method CopyColorsInto(cv: array2<Color>)
      requires Valid() && mode == ColorMode && cv != colorValues
      requires cv.Length0 == width && cv.Length1 == height
      modifies cv
      ensures forall x, y :: 0 <= x < width && 0 <= y < height ==> cv[x, y] == colorValues[x, y]
    {
      for x := 0 to width
        invariant forall i, j :: 0 <= i < x && 0 <= j < height ==> cv[i, j] == colorValues[i, j]
      {
        for y := 0 to height
          invariant forall i, j :: 0 <= i < x && 0 <= j < height ==> cv[i, j] == colorValues[i, j]
          invariant forall j :: 0 <= j < y ==> cv[x, j] == colorValues[x, j]
        {
          cv[x, y] := colorValues[x, y];
        }
      }
    }

    /** Depth mode only: every pixel gets index `z`. */
    method SetAllPixels(z: int) returns (o: Outcome)
      requires Valid()
      modifies pixelValues
      ensures o == Pass <==> mode == Depth
      ensures mode != Depth ==> o == Fail(ModeMismatch) && unchanged(pixelValues)
      ensures mode == Depth ==> forall x, y :: 0 <= x < width && 0 <= y < height ==> pixelValues[x, y] == z
    {
      if mode != Depth {
        return Fail(ModeMismatch);
      }
      for x := 0 to width
        invariant forall i, j :: 0 <= i < x && 0 <= j < height ==> pixelValues[i, j] == z
      {
        for y := 0 to height
          invariant forall i, j :: 0 <= i < x && 0 <= j < height ==> pixelValues[i, j] == z
          invariant forall j :: 0 <= j < y ==> pixelValues[x, j] == z
        {
          pixelValues[x, y] := z;
        }
      }
      o := Pass;
    }

    /** Depth mode only: every pixel gets the light vector `light`. */
    method SetAllLighting(light: Vec3) returns (o: Outcome)
      requires Valid()
      modifies lighting
      ensures o == Pass <==> mode == Depth
      ensures mode != Depth ==> o == Fail(ModeMismatch) && unchanged(lighting)
      ensures mode == Depth ==> forall x, y :: 0 <= x < width && 0 <= y < height ==> lighting[x, y] == light
    {
      if mode != Depth {
        return Fail(ModeMismatch);
      }
      for x := 0 to width
        invariant forall i, j :: 0 <= i < x && 0 <= j < height ==> lighting[i, j] == light
      {
        for y := 0 to height
          invariant forall i, j :: 0 <= i < x && 0 <= j < height ==> lighting[i, j] == light
          invariant forall j :: 0 <= j < y ==> lighting[x, j] == light
        {
          lighting[x, y] := light;
        }
      }
      o := Pass;
    }

    /** Depth mode only: sets one pixel's index and light; a position or an
        index out of range is ignored. */
    method SetPixel(x: int, y: int, z: int, light: Vec3) returns (o: Outcome)
      requires Valid()
      modifies pixelValues, lighting
      ensures o == Pass <==> mode == Depth
      ensures mode != Depth ==> o == Fail(ModeMismatch)
      ensures !(mode == Depth && 0 <= x < width && 0 <= y < height && 0 <= z < depth) ==>
        unchanged(pixelValues) && unchanged(lighting)
      ensures mode == Depth && 0 <= x < width && 0 <= y < height && 0 <= z < depth ==>
        forall i, j :: 0 <= i < width && 0 <= j < height ==>
          pixelValues[i, j] == (if i == x && j == y then z else old(pixelValues[i, j])) &&
          lighting[i, j] == (if i == x && j == y then light else old(lighting[i, j]))
    {
      if mode != Depth {
        return Fail(ModeMismatch);
      }
      o := Pass;
      if x < 0 || x >= width || y < 0 || y >= height || z < 0 || z >= depth {
        return;
      }
      pixelValues[x, y] := z;
      lighting[x, y] := light;
    }

    /** Colour mode only: sets one pixel's colour; a position out of range
        is ignored. */
    method SetColorPixel(x: int, y: int, color: Color) returns (o: Outcome)
      requires Valid()
      modifies colorValues
      ensures o == Pass <==> mode == ColorMode
      ensures mode != ColorMode ==> o == Fail(ModeMismatch)
      ensures colorValues != null && !(mode == ColorMode && 0 <= x < width && 0 <= y < height) ==>
        unchanged(colorValues)
      ensures mode == ColorMode && 0 <= x < width && 0 <= y < height ==>
        forall i, j :: 0 <= i < width && 0 <= j < height ==>
          colorValues[i, j] == if i == x && j == y then color else old(colorValues[i, j])
    {
      if mode != ColorMode {
        return Fail(ModeMismatch);
      }
      o := Pass;
      if x < 0 || x >= width || y < 0 || y >= height {
        return;
      }
      colorValues[x, y] := color;
    }

    /** Depth mode only: after the checks, copies `(toWidth - fromWidth + 1)
        * height` indices and then as many lights, each from the start of its
        source, to the flat offset of column `fromWidth`. Each copy makes
        `Array.Copy`'s own checks; when the second copy fails the indices
        are already written. */
    method SetBlock(pixels: seq<int>, lights: seq<Vec3>, fromWidth: int, toWidth: int, h: int, d: int)
      returns (o: Outcome)
      requires Valid()
      modifies pixelValues, lighting
      ensures var pre := DepthBlockCheck(old(mode), width, height, depth, fromWidth, toWidth, h, d);
        var start, n := fromWidth * height, (toWidth - fromWidth + 1) * height;
        var pixelCopy := CopyCheck(|pixels|, start, n, width * height);
        var lightCopy := CopyCheck(|lights|, start, n, width * height);
        (pre != Pass ==> o == pre && unchanged(pixelValues) && unchanged(lighting)) &&
        (pre == Pass && pixelCopy != Pass ==> o == pixelCopy && unchanged(pixelValues) && unchanged(lighting)) &&
        (pre == Pass && pixelCopy == Pass ==> FlatCopied(pixelValues, pixels, start, n)) &&
        (pre == Pass && pixelCopy == Pass && lightCopy != Pass ==> o == lightCopy && unchanged(lighting)) &&
        (pre == Pass && pixelCopy == Pass && lightCopy == Pass ==> o == Pass && FlatCopied(lighting, lights, start, n))
    {
      if mode != Depth {
        return Fail(ModeMismatch);
      }
      if h != height {
        return Fail(HeightMismatch);
      }
      if d != depth {
        return Fail(DepthMismatch);
      }
      if fromWidth < 0 || fromWidth > width {
        return Fail(FromWidthOutOfRange);
      }
      if toWidth < 0 || toWidth > width {
        return Fail(ToWidthOutOfRange);
      }
      var subWidth := toWidth - fromWidth + 1;
      var startValues := fromWidth * height;
      var numberOfValues := subWidth * height;
      o := ArrayCopy(pixels, pixelValues, startValues, numberOfValues);
      if o != Pass {
        return;
      }
      o := ArrayCopy(lights, lighting, startValues, numberOfValues);
    }

    /** Colour mode only: the colour counterpart of SetBlock. */
    method SetColorBlock(colors: seq<Color>, fromWidth: int, toWidth: int, h: int) returns (o: Outcome)
      requires Valid()
      modifies colorValues
      ensures var pre := ColorBlockCheck(old(mode), width, height, fromWidth, toWidth, h);
        var start, n := fromWidth * height, (toWidth - fromWidth + 1) * height;
        var copied := CopyCheck(|colors|, start, n, width * height);
        (pre != Pass && colorValues != null ==> o == pre && unchanged(colorValues)) &&
        (pre != Pass ==> o == pre) &&
        (pre == Pass && copied != Pass ==> o == copied && colorValues != null && unchanged(colorValues)) &&
        (pre == Pass && copied == Pass ==> o == Pass && colorValues != null && FlatCopied(colorValues, colors, start, n))
    {
      if mode != ColorMode {
        return Fail(ModeMismatch);
      }
      if h != height {
        return Fail(HeightMismatch);
      }
      if fromWidth < 0 || fromWidth > width {
        return Fail(FromWidthOutOfRange);
      }
      if toWidth < 0 || toWidth > width {
        return Fail(ToWidthOutOfRange);
      }
      var subWidth := toWidth - fromWidth + 1;
      var startValues := fromWidth * height;
      var numberOfValues := subWidth * height;
      o := ArrayCopy(colors, colorValues, startValues, numberOfValues);
    }

    /** The colour a pixel starts from: the palette's colour at its index in
        depth mode, its own colour in colour mode. */
    function SourceColor(m: PointMap, x: int, y: int): (c: Color)
      reads this, pixelValues, colorValues
      requires Valid() && 0 <= x < width && 0 <= y < height
      ensures mode == Depth && pixelValues[x, y] in m ==> c == m[pixelValues[x, y]].color
      ensures mode == Depth && |m| == 0 ==> c == White
    {
      if mode == Depth then ColorAt(m, pixelValues[x, y]) else colorValues[x, y]
    }

    /** The source colours of the whole image as a grid indexed [x][y]. */
    function Sources(m: PointMap): (g: Grid)
      reads this, pixelValues, colorValues
      requires Valid()
      ensures IsGrid(g, width, height)
      ensures forall x, y :: 0 <= x < width && 0 <= y < height ==> g[x][y] == SourceColor(m, x, y)
    {
      SourceColumns(m, width)
    }

    /** Columns `0 .. x-1` of the source colours. */
    function SourceColumns(m: PointMap, x: int): (g: Grid)
      reads this, pixelValues, colorValues
      requires Valid() && 0 <= x <= width
      ensures IsGrid(g, x, height)
      ensures forall i, j :: 0 <= i < x && 0 <= j < height ==> g[i][j] == SourceColor(m, i, j)
      decreases x
    {
      if x == 0 then [] else SourceColumns(m, x - 1) + [SourceColumn(m, x - 1, height)]
    }

    /** Rows `0 .. y-1` of column `x` of the source colours. */
    function SourceColumn(m: PointMap, x: int, y: int): (col: seq<Color>)
      reads this, pixelValues, colorValues
      requires Valid() && 0 <= x < width && 0 <= y <= height
      ensures |col| == y && forall j :: 0 <= j < y ==> col[j] == SourceColor(m, x, j)
      decreases y
    {
      if y == 0 then [] else SourceColumn(m, x, y - 1) + [SourceColor(m, x, y - 1)]
    }

    /** The colour a render or a scan reads for pixel (x,y). */
    method GetSourceColor(palette: Palette, x: int, y: int) returns (c: Color)
      requires Valid() && 0 <= x < width && 0 <= y < height
      ensures c == SourceColor(palette.points, x, y)
    {
      if mode == Depth {
        c := palette.GetColor(pixelValues[x, y]);
      } else {
        c := colorValues[x, y];
      }
    }

    /** The GetMinMax scans: the running minimum and maximum of one HSL
        component over every pixel, column by column. `g` names the image's
        source colours for the contract. */
    method GetMinMax(palette: Palette, ch: Channel, ghost g: Grid) returns (sp: DbPair)
      requires Valid() && g == Sources(palette.points)
      ensures sp == MinMax(g, ch, height)
    {
      ghost var v := Components(g, ch, width, height);
      sp := ScanStart(ch);
      for x := 0 to width
        invariant sp == ScanColumns(v, ScanStart(ch), x, height)
      {
        ghost var start := sp;
        assert |v[x]| == height;
        for y := 0 to height
          invariant sp == ScanColumn(v, start, x, y)
        {
          var pixelColor := GetSourceColor(palette, x, y);
          assert pixelColor == g[x][y];
          ValueAt(g, ch, height, x, y);
          var hsl := ToHsl(pixelColor);
          sp := Widen(sp, Component(hsl, ch));
        }
      }
    }

    /** A pixel's output colour: its source colour transformed and, in
        depth mode, lit by its light vector. */
    function PixelOut(m: PointMap, p: Process, ambient: real, x: int, y: int): (c: Color)
      reads this, pixelValues, lighting, colorValues
      requires Valid() && ProcessOk(p) && 0 <= x < width && 0 <= y < height
      ensures c.a == SourceColor(m, x, y).a
      ensures mode != Depth ==> c == Transform(p, colorValues[x, y])
      ensures mode != Depth && p.Plain? ==> c == colorValues[x, y]
    {
      if mode == Depth then FinalColor(p, SourceColor(m, x, y), true, lighting[x, y], ambient)
      else FinalColor(p, SourceColor(m, x, y), false, ZeroVec, ambient)
    }

    /** The output colours of the whole image as a grid indexed [x][y]. */
    function Outputs(m: PointMap, p: Process, ambient: real): (g: Grid)
      reads this, pixelValues, lighting, colorValues
      requires Valid() && ProcessOk(p)
      ensures IsGrid(g, width, height)
      ensures forall x, y :: 0 <= x < width && 0 <= y < height ==> g[x][y] == PixelOut(m, p, ambient, x, y)
    {
      seq(width, x requires 0 <= x < width && Valid() && ProcessOk(p)
          reads this, pixelValues, lighting, colorValues =>
        seq(height, y requires 0 <= y < height && Valid() && ProcessOk(p) && 0 <= x < width
            reads this, pixelValues, lighting, colorValues =>
          PixelOut(m, p, ambient, x, y)))
    }

    /** The render loop shared by every bitmap routine: for each column, for
        each row, the pixel's output colour is written as four bytes at
        `stride * y + 4 * x`. Bytes outside the image are not touched. */
    method Render(palette: Palette, p: Process, ambient: real, buf: array<byte>, stride: int, ghost out: Grid)
      requires Valid() && ProcessOk(p) && 4 * width <= stride && stride * height <= buf.Length
      requires out == Outputs(palette.points, p, ambient)
      modifies buf
      ensures forall k :: 0 <= k < buf.Length ==>
        buf[k] == if InImage(k, stride, width, height)
          then GridByte(out, stride, width, height, k) else old(buf[k])
    {
      NoneBefore(stride, width, height);
      for x := 0 to width
        invariant forall k :: 0 <= k < buf.Length ==>
          buf[k] == if Before(k, stride, width, height, x, 0)
            then GridByte(out, stride, width, height, k) else old(buf[k])
      {
        for y := 0 to height
          invariant forall k :: 0 <= k < buf.Length ==>
            buf[k] == if Before(k, stride, width, height, x, y)
              then GridByte(out, stride, width, height, k) else old(buf[k])
        {
          var c: Color;
          if mode == Depth {
            var pixelColor := palette.GetColor(pixelValues[x, y]);
            c := Lighting.CalculateLight(Transform(p, pixelColor), lighting[x, y], ambient);
          } else {
            c := Transform(p, colorValues[x, y]);
          }
          assert c == out[x][y];
          var pos := stride * y + x * 4;
          SlotFits(stride, width, height, x, y);
          WritePixel(buf, pos, c);
          RowStep(stride, width, height, x, y);
          forall k | pos <= k < pos + 4
            ensures InImage(k, stride, width, height)
            ensures GridByte(out, stride, width, height, k) == ByteOf(c, k - pos)
          {
            PixelBytes(out, stride, width, height, x, y, k - pos);
          }
        }
        ColumnStep(stride, width, height, x);
      }
      AllBefore(stride, width, height);
    }

    /** The routine GetBitmap selects, with the scans it runs for the HSL
        remap. `g` names the image's source colours for the contract. */
    method SelectProcess(palette: Palette, info: DisplayInfo, ghost g: Grid) returns (p: Process)
      requires Valid() && info.Valid() && g == Sources(palette.points)
      requires info.mode == Contrast ==> StretchBounds(info.minRgb[..], info.maxRgb[..])
      ensures p == ChosenProcess(info, g, height)
    {
      match ChooseRoute(info.mode, info.hue, info.saturation, info.lightness) {
        case PlainRoute =>
          p := Plain;
        case ContrastRoute =>
          p := Stretch(info.minRgb[..], info.maxRgb[..]);
        case HslRoute(hue, sat, light) =>
          var huePr, satPr, lightPr := ScanStart(HueC), ScanStart(SatC), ScanStart(LightC);
          if hue {
            huePr := GetMinMax(palette, HueC, g);
          }
          if sat {
            satPr := GetMinMax(palette, SatC, g);
          }
          if light {
            lightPr := GetMinMax(palette, LightC, g);
          }
          var t := Targets(info.minHue, info.maxHue, info.minSaturation, info.maxSaturation,
            info.minLightness, info.maxLightness);
          var r := HslRemaps(hue, sat, light, t, huePr, satPr, lightPr);
          p := HslRemap(r.0, r.1, r.2);
      }
    }

    /** GetBitmap: a fresh zeroed bitmap of `height` rows of `stride` bytes.
        A depth image whose palette size differs from its depth returns it
        untouched; a failed lock is an error; otherwise every pixel is
        rendered through the selected routine. */
    method GetBitmap(palette: Palette, info: DisplayInfo, ambient: real, stride: int, lockFails: bool)
      returns (o: Outcome, buf: array<byte>)
      requires Valid() && info.Valid() && 4 * width <= stride
      requires info.mode == Contrast ==> StretchBounds(info.minRgb[..], info.maxRgb[..])
      ensures fresh(buf) && buf.Length == stride * height
      ensures mode == Depth && palette.numberOfColors != depth ==>
        o == Pass && forall k :: 0 <= k < buf.Length ==> buf[k] == 0
      ensures (mode != Depth || palette.numberOfColors == depth) && lockFails ==> o == Fail(LockFailed)
      ensures (mode != Depth || palette.numberOfColors == depth) && !lockFails ==>
        o == Pass && forall k :: 0 <= k < buf.Length ==>
          buf[k] == if InImage(k, stride, width, height)
            then GridByte(old(Outputs(palette.points, ChosenProcess(info, Sources(palette.points), height), ambient)),
              stride, width, height, k)
            else 0
    {
      SlotFits(stride, width, height, 0, 0);
      buf := new byte[stride * height](_ => 0);
      o := Pass;
      if mode == Depth && palette.numberOfColors != depth {
        return;
      }
      ghost var out := Outputs(palette.points, ChosenProcess(info, Sources(palette.points), height), ambient);
      assert out == old(Outputs(palette.points, ChosenProcess(info, Sources(palette.points), height), ambient));
      o := Draw(palette, info, ambient, stride, lockFails, buf, out);
    }

    /** The routine GetBitmap dispatches to: the scans the display settings
        ask for, the lock, then the render. `out` names the output colours. */
    method Draw(palette: Palette, info: DisplayInfo, ambient: real, stride: int, lockFails: bool,
                buf: array<byte>, ghost out: Grid) returns (o: Outcome)
      requires Valid() && info.Valid() && 4 * width <= stride && stride * height <= buf.Length
      requires info.mode == Contrast ==> StretchBounds(info.minRgb[..], info.maxRgb[..])
      requires buf != info.minRgb && buf != info.maxRgb
      requires out == Outputs(palette.points, ChosenProcess(info, Sources(palette.points), height), ambient)
      modifies buf
      ensures lockFails ==> o == Fail(LockFailed) && unchanged(buf)
      ensures !lockFails ==> o == Pass && forall k :: 0 <= k < buf.Length ==>
        buf[k] == if InImage(k, stride, width, height) then GridByte(out, stride, width, height, k) else old(buf[k])
    {
      var p := SelectProcess(palette, info, Sources(palette.points));
      if lockFails {
        return Fail(LockFailed);
      }
      Render(palette, p, ambient, buf, stride, out);
      return Pass;
    }

    /** The plain depth routine writes the palette colour at the pixel's
        index lit by the pixel's light. */
    lemma {:induction false} PlainDepthPixel(m: PointMap, ambient: real, x: int, y: int)
      requires Valid() && mode == Depth && 0 <= x < width && 0 <= y < height
      ensures PixelOut(m, Plain, ambient, x, y) == Lighting.CalculateLight(ColorAt(m, pixelValues[x, y]), lighting[x, y], ambient)
    {
    }

    /** The colour-mode routines do not light: with the plain routine a
        pixel comes out as it is stored, and with the default contrast
        bounds as well. */
    lemma {:induction false} ColorPixelUnchanged(m: PointMap, ambient: real, x: int, y: int)
      requires Valid() && mode == ColorMode && 0 <= x < width && 0 <= y < height
      ensures PixelOut(m, Plain, ambient, x, y) == colorValues[x, y]
      ensures PixelOut(m, Stretch([0, 0, 0], [255, 255, 255]), ambient, x, y) == colorValues[x, y]
    {
      StretchDefaultIsIdentity(colorValues[x, y]);
    }

    /** The contrast routine keeps each pixel's alpha (before lighting, which
        keeps it too). */
    lemma {:induction false} ContrastKeepsAlpha(m: PointMap, minRgb: seq<byte>, maxRgb: seq<byte>, ambient: real, x: int, y: int)
      requires Valid() && StretchBounds(minRgb, maxRgb) && 0 <= x < width && 0 <= y < height
      ensures PixelOut(m, Stretch(minRgb, maxRgb), ambient, x, y).a == SourceColor(m, x, y).a
    {
    }
  }
}
