# FractureCommonLib core in Dafny

A model of the imaging core of FractureCommonLib, with proofs. The core has
four parts:

- **Colour points and palettes.** A palette maps a number of colours onto
  `ColorPoint` anchors. Each anchor sits at the index its position in [0,1]
  maps to. The colour at any other index is the truncating blend of the
  two anchors around it.
- **Palette factory.** It builds the standard palette, a palette from
  pins, and a two-pin palette.
- **HSL and RGB.** `HSL` and `RGB` are value structs whose setters wrap or
  clamp. `HslConvertor` converts between the two colour spaces.
- **Images.** `DisplayInfo` holds the display settings. `RawLightedImage`
  holds per-pixel palette indices and light vectors (depth mode) or
  per-pixel colours (colour mode). It renders either kind into a 32-bit
  bitmap: contrast stretch, HSL remapping from min/max scans, lighting.

How the C# maps onto the model:

- **Classes whose fields are updated in place** are Dafny classes.
  - `ColorPoint`, `Palette`, `DisplayInfo`, `RawLightedImage`.
  - The `HSL` and `RGB` structs, because their setters update fields.
  - `Palette` keeps its `SortedList` as a `map<int, Point>` of anchor
    values. Every mutating method is proved equal to a function on that
    map (`TryToAdd`, `AddPoint`, `Redistribute`, `Spread`, `Move`,
    `Remove`). The invariant `Anchored` (every anchor at the index its
    position maps to, position in [0,1]) is proved preserved.
- **Pure code** is datatypes, functions and lemmas.
  - `HslConvertor` and `LightingUtil`.
  - The per-pixel pipeline of the bitmap routines.
- **Numbers.** Doubles and floats are exact reals. C# casts from floating
  point to integers are truncation (`Trunc`). The floating-point `%` is
  `FMod`, whose result has the sign of the dividend.
- **Exceptions** are `Fail`/`Failure` results. Each exception has its own
  error value, so the order in which checks are made stays observable.
- **The bitmap** is a fresh byte array of `stride * height` bytes. Pixel
  `(x,y)` occupies bytes `stride * y + 4 * x .. + 3` in the order B, G, R,
  A. Whether `LockBits` fails is a parameter.

Main results:

- **Palette maps.**
  - Over exact reals, every palette operation keeps a palette anchored.
  - Over exact reals, changing the count to the one a palette already has
    is the identity.
  - `SpreadPinsEvenly` never fails on an anchored palette. It puts the
    first anchor's colour at 0 and the last one's at n-1. Each middle
    anchor lands on its spread index unless an earlier one took it.
  - A collision at index i retries once at i-1 (at i+1 from 0 or
    below), and not at all from n-1 upwards.
- **Palette lookups.**
  - `GetSurroundingColorPoints` finds the greatest anchor below an index
    and the least at or above it.
  - `GetColor` blends between them: each channel is the integer part of
    the distance-weighted sum, the integer mean halfway.
- **Factory.** The standard palette holds its eight anchors (two below 8
  colours) at the indices `k(n-1)/7`.
- **HSL conversion.**
  - Converting a colour to HSL and back gives the same colour.
  - The hue setter wraps any angle into [0,360).
- **Scans and rendering.**
  - The min/max scans return the attained extremes of a component.
  - The render loop writes exactly the output colour of each pixel into its
    four bytes and leaves row padding alone.
- **Block copy.** `SetBlock` with `toWidth == width`, for a source that
  holds the requested columns, passes its own argument checks but always
  fails: the requested range runs past the destination.

## Model

| member | source | states |
|---|---|---|
| Common.Trunc | ColorPoint.cs:69 | a double-to-int cast truncates toward zero: for non-negative x the result is the floor, for negative x the ceiling |
| Common.ClampInt | RawLightedImage.cs:409-410 | `Math.Min(Math.Max(x, lo), hi)` lies in [lo,hi], is x inside the range and the nearer bound outside it |
| Common.ClampReal | LightingUtil.cs:16-18 | the real clamp lies in [lo,hi], is x inside the range and the nearer bound outside it |
| Common.FMod | HslConvertor.cs:33 | the C# remainder of doubles lies in [0,y) for a non-negative dividend and in (-y,0] for a negative one |
| ColorPoints.ColorIndex | ColorPoint.cs:61-71 | fails exactly when there are fewer than two colours; otherwise the index is position*(n-1) truncated toward zero: its floor for a position of 0 or more, its ceiling (at most 0) for a negative position |
| ColorPoints.PositionForIndex | ColorPoint.cs:74-97 | the three argument checks fail in source order; on success the position is in [0,1] and maps exactly onto the index |
| ColorPoints.IndexInRange | ColorPoint.cs:61-71 | a position in [0,1] gives an index in [0,n-1], and the last index exactly for position 1 |
| ColorPoints.IndexMonotone | ColorPoint.cs:61-71 | the index is monotone in the position |
| ColorPoints.IndexPositionRoundTrip | ColorPoint.cs:74-97 | setting a position by index and reading the index back gives the same index |
| ColorPoints.PositionMonotone | ColorPoint.cs:74-97 | larger indices give strictly larger positions |
| ColorPoints.ColorPoint.Default | ColorPoint.cs:12-21 | the parameterless point is White at position 0 |
| ColorPoints.ColorPoint.constructor | ColorPoint.cs:23-28 | colour and position are stored without a range check |
| ColorPoints.ColorPoint.SetPointColor | ColorPoint.cs:36-41 | the colour changes and the position does not |
| ColorPoints.ColorPoint.SetPosition | ColorPoint.cs:44-58 | a value outside [0,1] is rejected and the old position kept; otherwise it is stored; the colour never changes |
| ColorPoints.ColorPoint.GetColorIndex | ColorPoint.cs:61-71 | returns the index of the point's own position |
| ColorPoints.ColorPoint.SetPositionByIndex | ColorPoint.cs:74-97 | on failure the point is unchanged; on success its position maps exactly onto the index |
| ColorPoints.ColorPoint.Clone | ColorPoint.cs:100-104 | a fresh point with equal colour and position |
| PaletteMaps.HasLeast | Palette.cs:230-249 | a non-empty set of indices has a least member (the first key a SortedList enumerates) |
| PaletteMaps.HasGreatest | Palette.cs:230-249 | a non-empty set of indices has a greatest member |
| PaletteMaps.SortedKeys | Palette.cs:99 | SortedList enumeration: the keys, each once, strictly increasing |
| PaletteMaps.SortedKeysCover | Palette.cs:99 | every key of the list is enumerated |
| PaletteMaps.KeyPosition | Palette.cs:234 | each key of the list has a position in the enumeration |
| PaletteMaps.InOrder | Palette.cs:99-105 | the anchors in enumeration order, one per key |
| PaletteMaps.TryToAdd | Palette.cs:75-93 | a free index takes the point; existing anchors are never replaced; the only new key is the index or its retry slot; at most one anchor is added; failure only for an occupied negative index |
| PaletteMaps.TryToAddCollision | Palette.cs:79-92 | on an occupied index: at n-1 or above, or with the retry slot (index-1, or index+1 from 0 or below) taken, the map is unchanged; otherwise the point's colour is added on the retry slot at the position that maps exactly onto it, failing only for a negative slot or fewer than two colours |
| PaletteMaps.Retry | Palette.cs:81-84 | the retry slot is a neighbour of the index: one below a positive index (and so never negative there), one above from 0 or below; it is negative exactly when the index is below -1 |
| PaletteMaps.AddPoint | Palette.cs:156-163 | fewer than two colours fail; existing anchors are kept; at most one is added |
| PaletteMaps.AddAll | PaletteFactory.cs:70-73 | adding points in order keeps existing anchors and adds at most one per point |
| PaletteMaps.Redistribute | Palette.cs:95-108 | rebuilding for a new count never creates anchors |
| PaletteMaps.SpreadIndex | Palette.cs:312-330 | the first pin goes to index 0, the last to n-1 |
| PaletteMaps.SpreadFrom | Palette.cs:306-332 | spreading a prefix of the pins never creates anchors |
| PaletteMaps.Spread | Palette.cs:297-335 | an empty palette is left as it is; otherwise no more anchors than before |
| PaletteMaps.Move | Palette.cs:191-227 | the four checks fail in source order; a successful move takes the anchor's colour to newIndex, places it exactly there, and leaves every other anchor alone |
| PaletteMaps.Remove | Palette.cs:167-179 | fails exactly when no anchor is at the index; otherwise only that anchor goes |
| PaletteMaps.Lower | Palette.cs:234-240 | the greatest key below the index, None exactly when every key is at or above it |
| PaletteMaps.Higher | Palette.cs:241-246 | the least key at or above the index, None exactly when every key is below it |
| PaletteMaps.Surrounding | Palette.cs:230-249 | the pair holds the lower and higher neighbours with their anchors |
| PaletteMaps.BlendChannel | Palette.cs:266-276 | the channel is the integer part of (1-t)*c1 + t*c2, so it lies between the two channels and equals the end channel at either end |
| PaletteMaps.Weight | Palette.cs:260-268 | t times the distance between the anchors is the distance from the lower one; t lies in [0,1] between them, is 0 at the lower and 1 at the higher |
| PaletteMaps.Interpolate | Palette.cs:268-276 | for t in [0,1] the weighted sum (1-t)*lo + t*hi lies between lo and hi |
| PaletteMaps.BetweenEnds | Palette.cs:266-267 | a point on the segment (1-t)a + tb lies between a and b |
| PaletteMaps.Blend | Palette.cs:252-280 | every channel, alpha included, is the integer part of the two anchors' channels weighted by t = (index-low)/(high-low) and 1-t; so it lies between them, and at either anchor's index it is that anchor's colour |
| PaletteMaps.BlendMidpoint | Palette.cs:260-276 | halfway between two anchors every channel is the integer mean of the anchors' channels |
| PaletteMaps.ColorAt | Palette.cs:111-133 | an anchor's own colour at its index; White when empty; the only neighbour's colour beyond the ends; in between, the Blend of the greatest anchor below and the least anchor above |
| PaletteLaws.Restrict | Palette.cs:99-107 | the entries whose keys occur in a list of keys |
| PaletteLaws.AnchoredKeysInRange | ColorPoint.cs:61-71 | an anchored palette with an anchor has at least two colours, and all keys lie in [0,n-1] |
| PaletteLaws.TryToAddAnchored | Palette.cs:75-93 | the collision policy keeps a palette anchored and does not fail for a point offered at its own index |
| PaletteLaws.AddPointAnchored | Palette.cs:156-163 | AddColorPoint with a position in [0,1] never fails and keeps the palette anchored |
| PaletteLaws.AddAllAnchored | PaletteFactory.cs:70-73 | adding pins with positions in [0,1] never fails and keeps the palette anchored |
| PaletteLaws.RedistributeAnchored | Palette.cs:95-108 | changing the count to n >= 2 never fails and leaves the palette anchored under the new count |
| PaletteLaws.RebuildPrefix | Palette.cs:99-105 | re-inserting anchors in key order at their own keys rebuilds exactly the anchors seen so far |
| PaletteLaws.AddAllSnoc | PaletteFactory.cs:70-73 | adding one more pin continues from the shorter prefix |
| PaletteLaws.AddAllFailureSticks | PaletteFactory.cs:70-73 | once a pin throws, the whole call fails the same way |
| PaletteLaws.SpreadFromSnoc | Palette.cs:309-332 | one more loop step of SpreadPinsEvenly continues from the shorter prefix |
| PaletteLaws.SpreadFromFailureSticks | Palette.cs:309-332 | once placing a pin throws, SpreadPinsEvenly fails the same way |
| PaletteLaws.AddAtFreeIndex | Palette.cs:77-78 | a point whose index is free goes in unchanged |
| PaletteLaws.RedistributeSameCount | Palette.cs:58-66 | setting NumberOfColors to its own value leaves an anchored palette exactly as it was |
| PaletteLaws.KeyOrderAnchored | Palette.cs:99-104 | in key order, each anchor of an anchored map maps onto its own key |
| PaletteLaws.RestrictToAllKeys | Palette.cs:99-107 | restricting to all keys gives the map back |
| PaletteLaws.AnchoredCount | Palette.cs:75-93 | an anchored palette holds at most one anchor per colour |
| PaletteLaws.SpreadIndexInRange | Palette.cs:304-327 | with no more pins than colours, every spread index lies in [0,n-1], and a middle pin's at most n-2 |
| PaletteLaws.SpreadFromAnchored | Palette.cs:309-332 | spreading at most n pins never fails and keeps the palette anchored |
| PaletteLaws.SpreadAnchored | Palette.cs:297-335 | SpreadPinsEvenly never fails on an anchored palette and keeps it anchored |
| PaletteLaws.SpreadFromKeeps | Palette.cs:309-332 | a later pin never displaces an anchor an earlier pin placed |
| PaletteLaws.SpreadFromBelowLast | Palette.cs:309-332 | before the last pin, every placed anchor (retries included) sits at or below n-2 |
| PaletteLaws.SpreadFromPlaces | Palette.cs:325-329 | a pin whose spread index is still free lands there with its colour |
| PaletteLaws.SpreadFromEnds | Palette.cs:312-324 | spreading k >= 2 pins (k <= n) succeeds, the first pin's colour at 0 and alone after the first step, the last pin's at n-1 |
| PaletteLaws.SpreadFromMiddles | Palette.cs:325-330 | each middle pin's colour lands at trunc(i*n/(k-1)+0.5)-1 whenever no earlier pin took that index |
| PaletteLaws.SpreadPlacement | Palette.cs:297-335 | for an anchored palette of k >= 2 anchors: the first anchor's colour at 0, the last one's at n-1, each middle one's at its spread index when that was free |
| PaletteLaws.SpreadMiddleOfThree | Palette.cs:297-335 | any three anchors in 100 colours end up exactly at 0, 49 and 99, in key order with their colours |
| PaletteLaws.MoveAnchored | Palette.cs:191-227 | a successful move keeps the palette anchored |
| PaletteLaws.RemoveAnchored | Palette.cs:167-179 | removal keeps the palette anchored |
| Palettes.Palette.constructor | Palette.cs:45-48 | an empty palette named "Default" with the given count, anchored |
| Palettes.Palette.WithPoints | Palette.cs:50-55 | the count, anchors and name are taken as given |
| Palettes.Palette.SetName | Palette.cs:68-72 | only the name changes |
| Palettes.Palette.SetNumberOfColors | Palette.cs:58-66 | the count is stored, then the anchors become Redistribute of the old ones; on failure they stay; for n >= 2 and positions in [0,1] it succeeds and the palette is anchored |
| Palettes.Palette.AddColorPoint | Palette.cs:156-163 | the anchors become AddPoint of the old ones (unchanged on failure); an anchored palette stays anchored |
| Palettes.Palette.RemoveColorPoint | Palette.cs:167-179 | removes the anchor at the index, or fails and changes nothing; keeps the palette anchored |
| Palettes.Palette.IsPointAtIndex | Palette.cs:184-187 | true exactly when an anchor sits at the index |
| Palettes.Palette.GetNumberOfColorPoints | Palette.cs:135-138 | the number of anchors |
| Palettes.Palette.GetColorPoint | Palette.cs:143-152 | null exactly when no anchor sits at the index; otherwise a point holding that anchor's state |
| Palettes.Palette.MoveColorPoint | Palette.cs:191-227 | the anchors become Move of the old ones, unchanged on failure; keeps the palette anchored |
| Palettes.Palette.GetSurroundingColorPoints | Palette.cs:230-249 | the scan in key order returns the pair of neighbours Surrounding describes |
| Palettes.Palette.GetColor | Palette.cs:111-133 | returns ColorAt of the anchors: the anchor's colour, White, the nearer end anchor's colour, or the weighted blend of the two neighbours |
| Palettes.Palette.GetCopyOfColorPointList | Palette.cs:282-294 | the copy holds exactly the palette's anchors |
| Palettes.Palette.SpreadPinsEvenly | Palette.cs:297-335 | the anchors become Spread of the old ones, unchanged on failure; an anchored palette never fails and stays anchored; where the anchors land is SpreadPlacement |
| Palettes.Palette.Clone | Palette.cs:338-353 | a fresh palette with the same count, name and anchors |
| Palettes.CopyEntries | Palette.cs:346-350 | the loop copies every entry of the map |
| Palettes.SpreadInOrder | Palette.cs:306-332 | the loop over the pins in key order computes SpreadFrom of all of them |
| Palettes.NeighboursAt | Palette.cs:234-246 | when the scan stops at the i-th key, the pair it holds is the pair of neighbours |
| Palettes.LowerAt | Palette.cs:236-240 | the last key passed before stopping is the greatest key below the index |
| Palettes.LowerIs | Palette.cs:236-240 | a key below the index that bounds every key below it is the lower neighbour |
| Palettes.HigherAt | Palette.cs:241-245 | the key the scan stops at is the least key at or above the index |
| Palettes.HigherIs | Palette.cs:241-245 | a key at or above the index that is below every other such key is the higher neighbour |
| Palettes.NeighboursAtEnd | Palette.cs:247-248 | a scan that runs off the end has only a lower neighbour, the last key |
| Palettes.LowerAtEnd | Palette.cs:247-248 | after the whole list the lower neighbour is the last key, if any |
| Palettes.HigherAtEnd | Palette.cs:247-248 | after the whole list there is no higher neighbour |
| PaletteFactories.StandardKey | PaletteFactory.cs:30-48 | the standard anchor k lands on index floor(k(n-1)/7) in [0,n-1]: 0 for black and n-1 for white |
| PaletteFactories.EndPins | PaletteFactory.cs:87-94 | exactly two anchors, low at 0 at index 0 and high at 1 at index n-1 |
| PaletteFactories.StandardUpTo | PaletteFactory.cs:32-48 | after j inner colours every key is at most the j-th standard key or is the last index |
| PaletteFactories.StandardMap | PaletteFactory.cs:9-51 | black at position 0 on index 0 and white at position 1 on index n-1 |
| PaletteFactories.FromPins | PaletteFactory.cs:53-76 | on success at most one anchor per pin, and at most two for an empty list |
| PaletteFactories.Values | PaletteFactory.cs:70 | the states of the list's points in list order |
| PaletteFactories.StandardIndex | PaletteFactory.cs:20-48 | every standard anchor has a position in [0,1] that maps to its standard key |
| PaletteFactories.StandardKeysIncrease | PaletteFactory.cs:26-48 | from 8 colours on the standard keys strictly increase, so no two anchors collide |
| PaletteFactories.StandardMapShape | PaletteFactory.cs:9-51 | below 8 colours only black and white; from 8 on all eight standard anchors, each at its key |
| PaletteFactories.StandardUpToShape | PaletteFactory.cs:32-48 | after j inner colours the palette holds j+2 anchors, each at its standard key |
| PaletteFactories.StandardMapAnchored | PaletteFactory.cs:9-51 | the standard palette is anchored |
| PaletteFactories.StandardUpToAnchored | PaletteFactory.cs:32-48 | every intermediate standard palette is anchored |
| PaletteFactories.EndPinsAnchored | PaletteFactory.cs:79-97 | the two-pin palette is anchored whatever its colours |
| PaletteFactories.StandardPinLands | PaletteFactory.cs:20-48 | a standard anchor added where its key is free is stored there unchanged |
| PaletteFactories.StandardNext | PaletteFactory.cs:32-48 | adding the j-th inner colour extends the palette by exactly that anchor |
| PaletteFactories.FromPinsTooFew | PaletteFactory.cs:53-76 | with fewer than two colours building from pins always fails with the too-few-colours error |
| PaletteFactories.AddAllTooFew | PaletteFactory.cs:70-73 | the first pin already fails with fewer than two colours |
| PaletteFactories.FromPinsAnchored | PaletteFactory.cs:53-76 | pins with positions in [0,1] always give an anchored palette of at least two colours |
| PaletteFactories.FromNoPins | PaletteFactory.cs:58-68 | an empty pin list gives black at index 0 and white at the last index |
| PaletteFactories.AddTwo | PaletteFactory.cs:61-65 | two additions in a row are the addition of the two-point list |
| PaletteFactories.FromNoPinsSteps | PaletteFactory.cs:58-68 | black fails exactly below two colours; otherwise black then white give the two-anchor palette |
| PaletteFactories.CreateStandardPalette | PaletteFactory.cs:9-51 | fewer than two colours fail; otherwise a fresh palette named "Default" holding the standard anchors, anchored |
| PaletteFactories.AddStandardPin | PaletteFactory.cs:32-48 | one inner addition moves the palette from j-1 to j inner colours |
| PaletteFactories.CreatePaletteFromPins | PaletteFactory.cs:53-76 | the count is not checked; the result is FromPins of the pins' states, or its error |
| PaletteFactories.AddBlackAndWhite | PaletteFactory.cs:58-68 | the empty-list branch gives FromPins of no pins |
| PaletteFactories.AddPins | PaletteFactory.cs:70-75 | the foreach adds the pins in list order, stopping at the first that throws |
| PaletteFactories.AddPin | PaletteFactory.cs:72-73 | one pass of the foreach extends the fold over the earlier pins by one AddPoint |
| PaletteFactories.CreateTwoPinPalette | PaletteFactory.cs:79-97 | fewer than two colours fail; otherwise a fresh palette with low at index 0 and high at n-1, anchored |
| ColorSpace.WrapHue | HSL.cs:9-19 | the wrapped hue lies in [0,360), differs from the input by whole turns, and keeps an input already in range |
| ColorSpace.WrapHueUnique | HSL.cs:9-19 | any angle in [0,360) that differs from v by whole turns is WrapHue(v) |
| ColorSpace.Quantize | RGB.cs:61-63 | `(byte)(x*255+0.5)` is the nearest byte to x*255, halves rounding up |
| ColorSpace.QuantizeFraction | RGB.cs:61-63 | quantizing v/255 gives the byte v back |
| ColorSpace.QuantizeEnds | RGB.cs:61-63 | 0 goes to 0 and 1 to 255 |
| ColorSpace.QuantizeMonotone | RGB.cs:61-63 | quantizing preserves order |
| ColorSpace.RgbToColor | RGB.cs:59-68 | each channel is quantized and the alpha is passed through |
| ColorSpace.HslStruct.constructor | HSL.cs:52-57 | the constructor stores its arguments raw |
| ColorSpace.HslStruct.SetH | HSL.cs:9-19 | the two while loops store WrapHue of the value; S and L are unchanged |
| ColorSpace.HslStruct.SetS | HSL.cs:26-34 | stores the value clamped to [0,1]; H and L are unchanged |
| ColorSpace.HslStruct.SetL | HSL.cs:41-49 | stores the value clamped to [0,1]; H and S are unchanged |
| ColorSpace.RgbStruct.constructor | RGB.cs:52-57 | the constructor stores its arguments raw |
| ColorSpace.RgbStruct.SetR | RGB.cs:11-20 | stores the value clamped to [0,1]; G and B are unchanged |
| ColorSpace.RgbStruct.SetG | RGB.cs:26-35 | stores the value clamped to [0,1]; R and B are unchanged |
| ColorSpace.RgbStruct.SetB | RGB.cs:41-49 | stores the value clamped to [0,1]; R and G are unchanged |
| HslConversion.Max3 | HslConvertor.cs:78 | the greatest channel |
| HslConversion.Min3 | HslConvertor.cs:79 | the smallest channel |
| HslConversion.MaxComponent | HslConvertor.cs:7-22 | Total exactly for a grey; otherwise the first of R, G that equals max, with B as the fallback |
| HslConversion.MaxComponentIsMax | HslConvertor.cs:7-22 | the chosen channel attains the maximum; ties go to R, then G |
| HslConversion.Hue | HslConvertor.cs:24-50 | a grey has hue 0 |
| HslConversion.Lightness | HslConvertor.cs:52-57 | the lightness is (max+min)/510, in [0,1] |
| HslConversion.Saturation | HslConvertor.cs:59-73 | a grey has saturation 0 |
| HslConversion.ToHsl | HslConvertor.cs:75-88 | hue in [0,360), saturation and lightness in [0,1]; a grey has hue and saturation 0; lightness (max+min)/510 |
| HslConversion.Sector | HslConvertor.cs:96-138 | outside [0,6) every channel is 0 |
| HslConversion.ToRgb | HslConvertor.cs:90-145 | the alpha is the one given |
| HslConversion.Chroma | HslConvertor.cs:92 | for L and S in [0,1] the chroma c is non-negative and L - c/2 and L + c/2 stay in [0,1] |
| HslConversion.Secondary | HslConvertor.cs:93-94 | for a non-negative sector position and chroma c the secondary offset lies in [0,c] |
| HslConversion.Channels | HslConvertor.cs:90-142 | for a hue in [0,360) every channel lies between L - c/2 and L + c/2 and each end is taken by some channel: L is the mean of the largest and smallest channels and c their difference |
| HslConversion.ChannelsInRange | HslConvertor.cs:92-142 | for S and L in [0,1] every channel passed to RGB lies in [0,1], so its setters' clamps are not needed |
| HslConversion.ChromaRecovered | HslConvertor.cs:59-73 | a non-grey colour has saturation in (0,1], and ToRgb's chroma from it is the spread of the channels |
| HslConversion.Ratio | HslConvertor.cs:33-45 | the ratio of a channel difference to the spread lies in [-1,1] and scales back to the difference |
| HslConversion.HuePositionRed | HslConvertor.cs:31-35 | a red-dominant colour's hue/60 is (G-B)/C, plus 6 when negative |
| HslConversion.HuePositionGreen | HslConvertor.cs:37-41 | a green-dominant colour's hue/60 is (B-R)/C + 2 |
| HslConversion.HuePositionBlue | HslConvertor.cs:43-47 | a blue-dominant colour's hue/60 is (R-G)/C + 4 |
| HslConversion.SecondaryRising | HslConvertor.cs:94 | in the rising half of a sector pair, x is the ratio's share of the chroma |
| HslConversion.SecondaryFalling | HslConvertor.cs:94 | in the falling half of a sector pair, x is the negated ratio's share of the chroma |
| HslConversion.ChromaAndOffset | HslConvertor.cs:92-140 | from ToHsl's result, ToRgb rebuilds the chroma as the spread and the offset m as the smallest channel |
| HslConversion.RedRecovered | HslConvertor.cs:97-132 | for a red-dominant colour, sectors 0 and 5 give back its channel fractions |
| HslConversion.GreenRecovered | HslConvertor.cs:103-114 | for a green-dominant colour, sectors 1 and 2 give back its channel fractions |
| HslConversion.BlueRecovered | HslConvertor.cs:115-126 | for a blue-dominant colour, sectors 3 and 4 give back its channel fractions |
| HslConversion.ChannelsRecovered | HslConvertor.cs:90-142 | the channel fractions ToRgb computes from ToHsl(c) are c's own |
| HslConversion.RoundTrip | HslConvertor.cs:75-145 | ToRgb(ToHsl(c), c.A) == c for every colour |
| HslConversion.GreyWhenUnsaturated | HslConvertor.cs:92-142 | with saturation 0 every channel is the quantized lightness, whatever the hue |
| Lighting.LitChannel | LightingUtil.cs:16-20 | a channel is the truncation of 255 times the clamped lit value |
| Lighting.CalculateLight | LightingUtil.cs:14-21 | the alpha is passed through |
| Lighting.CalculateLightAtDepth | LightingUtil.cs:8-12 | lights the palette's colour at the depth |
| Lighting.DarkIsBlack | LightingUtil.cs:14-21 | no ambient and no light give black with the alpha kept |
| Lighting.FullAmbientIsIdentity | LightingUtil.cs:14-21 | full ambient and no light leave the colour unchanged |
| Lighting.ChannelSaturates | LightingUtil.cs:16-20 | a lit value of at least 1 gives 255 |
| Lighting.ChannelMonotone | LightingUtil.cs:16-20 | more light never darkens a channel |
| Lighting.LightMonotone | LightingUtil.cs:14-21 | a brighter light vector gives channels at least as bright |
| Lighting.LightAtAnchor | LightingUtil.cs:8-12 | at an anchor's index the depth overload lights that anchor's colour |
| Display.SwapThenClamp | DisplayInfo.cs:75-106 | the lower bound is at least 0 and the upper at most top; each is the min or max of the pair, or the limit it crossed; an in-range pair is kept or swapped into order |
| Display.SwapThenClampOrdered | DisplayInfo.cs:75-106 | the result is ordered when the smaller input is at most top and the larger is non-negative |
| Display.HueBoundsCanCross | DisplayInfo.cs:75-84 | two hues above MAX_HUE leave the lower bound above the upper one |
| Display.SwapThenClampKeeps | DisplayInfo.cs:75-106 | an ordered pair inside [0,top] is kept |
| Display.SortPair | DisplayInfo.cs:67-73 | the swap leaves the smaller byte first |
| Display.OrderAndClamp | DisplayInfo.cs:75-84 | the statements for one pair compute SwapThenClamp |
| Display.DisplayInfo.constructor | DisplayInfo.cs:16-62 | the defaults: mode Off, no flags, contrast 0 and 255, hue [0,300], saturation and lightness [0,1] |
| Display.DisplayInfo.Validate | DisplayInfo.cs:65-107 | each contrast pair is sorted; the hue pair is SwapThenClamp to MAX_HUE and the others to 1; nothing else changes |
| Display.DisplayInfo.ResetContrast | DisplayInfo.cs:109-116 | every contrast bound goes back to 0 and 255 |
| Display.DisplayInfo.ResetHsl | DisplayInfo.cs:118-126 | the HSL ranges go back to [0,MAX_HUE], [0,1], [0,1]; mode, flags and contrast arrays are kept |
| Display.DisplayInfo.CopyBoundsInto | DisplayInfo.cs:138-142 | the loop copies the three bounds of each array |
| Display.DisplayInfo.Clone | DisplayInfo.cs:128-152 | a fresh object with its own arrays and every setting equal |
| Display.DisplayInfo.CopyOf | DisplayInfo.cs:130-149 | the new object's settings equal the original's and its fresh arrays hold the same bounds |
| RenderPipeline.ScanStart | RawLightedImage.cs:490-548 | the scans start from (360,0) for the hue and from (1,0) for saturation and lightness |
| RenderPipeline.ComponentInRange | HslConvertor.cs:75-88 | each HSL component of a colour lies between 0 and its top value |
| RenderPipeline.Widen | RawLightedImage.cs:501-502 | one scan step lowers the min and raises the max to cover the value, each staying or becoming the value |
| RenderPipeline.ChooseRoute | RawLightedImage.cs:303-332 | Contrast stretches; HSL with a flag remaps the flagged components; HSL without flags and Off are plain |
| RenderPipeline.StretchFullRange | RawLightedImage.cs:370-426 | with bounds 0 and 255 the stretch of a channel is the identity |
| RenderPipeline.StretchSaturates | RawLightedImage.cs:405-410 | values at or below the lower bound go to 0, at or above the upper bound to 255 |
| RenderPipeline.StretchMonotone | RawLightedImage.cs:405-410 | the stretch preserves order |
| RenderPipeline.StretchColor | RawLightedImage.cs:405-410 | the alpha is kept |
| RenderPipeline.StretchChannel | RawLightedImage.cs:405-410 | when the scaled value (v-lo)*255/(hi-lo) lies in [0,255] the result is that value rounded to the nearest byte, halves rounding down |
| RenderPipeline.Rounded | RawLightedImage.cs:405-410 | a*k in [0,255] is rounded to the nearest byte; below 0.50001 the result is 0 and from 254.50001 it is 255 |
| RenderPipeline.StretchDefaultIsIdentity | RawLightedImage.cs:370-426 | default contrast bounds leave every colour unchanged |
| RenderPipeline.ScaleFactor | RawLightedImage.cs:618-628 | 1 for an empty observed range; otherwise target span over observed span |
| RenderPipeline.RemapOntoTarget | RawLightedImage.cs:663-670 | the remap sends the observed min and max to the target ends and everything between into the target range |
| RenderPipeline.RemapHsl | RawLightedImage.cs:661-672 | the remapped colour keeps the alpha |
| RenderPipeline.NeutralRemapKeepsColor | RawLightedImage.cs:661-672 | neutral remaps give the colour back |
| RenderPipeline.HslRemaps | RawLightedImage.cs:610-689 | a remap exactly for each flagged component, with the routine's scale and offset; the hue-only routines start the hue at MinSaturation |
| RenderPipeline.HueOnlyStartsAtMinSaturation | RawLightedImage.cs:1096 | the hue-only routine maps the smallest observed hue to MinSaturation, not to MinHue |
| RenderPipeline.Transform | RawLightedImage.cs:1573-1616 | the alpha is kept and the plain routine changes nothing |
| RenderPipeline.FinalColor | RawLightedImage.cs:412 | transformed, then lit in depth mode only |
| Scans.ComponentColumn | RawLightedImage.cs:497-501 | one column of component values |
| Scans.Components | RawLightedImage.cs:495-501 | the grid of component values has the image's shape |
| Scans.ValueAt | RawLightedImage.cs:499-501 | entry (x,y) of the component grid is the component of pixel (x,y) |
| Scans.ColumnScanBounds | RawLightedImage.cs:497-503 | scanning a column only widens the pair, bounds every value passed, and ends at its start or at a value passed |
| Scans.ScanBounds | RawLightedImage.cs:495-505 | the scan of the first x columns bounds every value in them |
| Scans.ScanReached | RawLightedImage.cs:495-505 | the scan ends at its start or at values it passed |
| Scans.ScanColumn | RawLightedImage.cs:497-503 | the scan of part of a column only widens its starting pair |
| Scans.ScanColumns | RawLightedImage.cs:495-505 | the scan of the first x columns only widens its starting pair |
| Scans.MinMax | RawLightedImage.cs:490-608 | the result only widens the starting pair (top of the component's range, 0): its minimum is at most that top and its maximum at least 0 |
| Scans.ScanAttained | RawLightedImage.cs:490-508 | for a non-empty grid starting inside the first value, both extremes are attained and bound everything |
| Scans.MinMaxBoundsPixel | RawLightedImage.cs:490-608 | the GetMinMax result bounds the component of every pixel |
| Scans.MinMaxAttained | RawLightedImage.cs:490-608 | the GetMinMax result is the true minimum and maximum over the pixels |
| Raster.DivModUnique | RawLightedImage.cs:401 | a byte offset determines its row and column |
| Raster.SlotOfPos | RawLightedImage.cs:401 | byte c of pixel (x,y) is in row y at column 4x+c |
| Raster.SlotInImage | RawLightedImage.cs:401 | every byte written for a pixel belongs to the image |
| Raster.NoneBefore | RawLightedImage.cs:397-399 | nothing has been written before the first pixel |
| Raster.RowStep | RawLightedImage.cs:399-418 | writing pixel (x,y) adds exactly its four bytes |
| Raster.ColumnStep | RawLightedImage.cs:397-399 | finishing a column is starting the next |
| Raster.SlotFits | RawLightedImage.cs:401 | the four bytes of every pixel fit in height rows of stride bytes |
| Raster.AllBefore | RawLightedImage.cs:397-419 | after the last column every byte of the image has been written |
| Raster.PixelBytes | RawLightedImage.cs:414-417 | byte c of pixel (x,y) is byte c (B, G, R, A) of its colour |
| FlatArrays.CopyCheck | RawLightedImage.cs:248-251 | Array.Copy passes exactly when count, source and destination fit; each failure in its order |
| FlatArrays.ArrayCopy | RawLightedImage.cs:248-251 | a failed copy changes nothing; a passing one copies the source prefix to the flat offsets and keeps everything else |
| FlatArrays.FlatCopy | RawLightedImage.cs:248-251 | the loop writes exactly the n flat offsets from start |
| FlatArrays.ColumnsCopied | RawLightedImage.cs:248-251 | a copy of whole columns overwrites element [x,y] exactly when x is one of them |
| FlatArrays.ColumnCopyFits | RawLightedImage.cs:248-251 | the copy fits exactly when the column range is not reversed by more than one, ends before width, and the source is long enough |
| FlatArrays.LastColumnOverruns | RawLightedImage.cs:236-251 | toWidth == width passes the range check but the copy always lacks room |
| RawImages.AtLeastOne | RawLightedImage.cs:32-48 | a size below 1 becomes 1 |
| RawImages.DepthBlockCheck | RawLightedImage.cs:226-247 | the depth block checks pass exactly for depth mode, the image's height and depth, and both columns in [0,width]; mode, height, depth fail in that order |
| RawImages.ColorBlockCheck | RawLightedImage.cs:256-271 | the colour block checks pass exactly for colour mode, the image's height and columns in [0,width] |
| RawImages.BlockToWidthOverruns | RawLightedImage.cs:236-251 | a block ending at width passes SetBlock's checks and then overruns the destination |
| RawImages.WritePixel | RawLightedImage.cs:414-417 | writes B, G, R, A at pos and nothing else |
| RawImages.ChosenProcess | RawLightedImage.cs:303-367 | the routine the settings select; Off and HSL without flags are plain, Contrast stretches with the bounds |
| RawImages.RawLightedImage.DepthImage | RawLightedImage.cs:27-61 | sizes below 1 become 1; every pixel is index 0 with the zero light |
| RawImages.RawLightedImage.ColorImage | RawLightedImage.cs:63-87 | sizes below 1 become 1; every colour is Empty; 1x1 depth arrays |
| RawImages.RawLightedImage.Clone | RawLightedImage.cs:124-157 | a fresh image of the same mode and size whose own arrays hold the same values |
| RawImages.RawLightedImage.CopyDepthInto | RawLightedImage.cs:130-138 | the loop copies every index and light |
| RawImages.RawLightedImage.CopyColorsInto | RawLightedImage.cs:146-152 | the loop copies every colour |
| RawImages.RawLightedImage.SetAllPixels | RawLightedImage.cs:160-172 | colour mode fails and changes nothing; depth mode sets every index |
| RawImages.RawLightedImage.SetAllLighting | RawLightedImage.cs:175-187 | colour mode fails and changes nothing; depth mode sets every light |
| RawImages.RawLightedImage.SetPixel | RawLightedImage.cs:190-205 | colour mode fails; out-of-range positions or indices are ignored; otherwise only that pixel changes |
| RawImages.RawLightedImage.SetColorPixel | RawLightedImage.cs:208-222 | depth mode fails; out-of-range positions are ignored; otherwise only that pixel changes |
| RawImages.RawLightedImage.SetBlock | RawLightedImage.cs:226-253 | the checks, then the index copy, then the light copy; each failure stops there, with indices already written when only the light copy fails |
| RawImages.RawLightedImage.SetColorBlock | RawLightedImage.cs:256-277 | the checks, then the colour copy; a failure changes nothing |
| RawImages.RawLightedImage.Sources | RawLightedImage.cs:402 | each pixel's source colour: the palette's colour at its index, or its own colour |
| RawImages.RawLightedImage.GetSourceColor | RawLightedImage.cs:402 | returns the pixel's source colour |
| RawImages.RawLightedImage.SourceColor | RawLightedImage.cs:402 | in depth mode a pixel on an anchor takes the anchor's colour and an empty palette gives white |
| RawImages.RawLightedImage.PixelOut | RawLightedImage.cs:402-412 | the alpha is the source colour's; in colour mode the pixel's own colour is transformed and never lit, and the plain process passes it through |
| RawImages.RawLightedImage.GetMinMax | RawLightedImage.cs:490-608 | the nested scan loops return MinMax of the component grid |
| RawImages.RawLightedImage.Outputs | RawLightedImage.cs:402-412 | each pixel's output colour |
| RawImages.RawLightedImage.Render | RawLightedImage.cs:397-419 | every image byte holds its pixel's output byte; row padding and bytes beyond are untouched |
| RawImages.RawLightedImage.SelectProcess | RawLightedImage.cs:303-367 | runs the scans the settings ask for and returns ChosenProcess |
| RawImages.RawLightedImage.Draw | RawLightedImage.cs:382-419 | a failed lock is an error and writes nothing; otherwise every image byte holds its output byte |
| RawImages.RawLightedImage.GetBitmap | RawLightedImage.cs:279-301 | a fresh zeroed bitmap; a palette size that differs from the depth returns it blank; a failed lock errors; otherwise every pixel holds its output colour and padding stays 0 |
| RawImages.RawLightedImage.PlainDepthPixel | RawLightedImage.cs:1573-1616 | the plain depth routine writes the palette colour at the pixel's index, lit by its light |
| RawImages.RawLightedImage.ColorPixelUnchanged | RawLightedImage.cs:1618-1659 | colour-mode plain and default-contrast routines write each pixel's colour as stored |
| RawImages.RawLightedImage.ContrastKeepsAlpha | RawLightedImage.cs:409 | the contrast routine keeps each pixel's alpha |

## Left out

- Floating point: doubles and floats are exact reals. Rounding, NaN and infinity are not modelled. The round trip of HSL conversion holds over exact arithmetic only.
- ColorPoints.IndexPositionRoundTrip, PaletteLaws.MoveAnchored, PaletteLaws.TryToAddAnchored (its retry path), PaletteLaws.RedistributeSameCount and the "anchored" and "identity" results built on them hold over exact reals only. The source stores `index / (n-1)` (ColorPoint.cs:96) and reads back `(int)(position * (n-1))` (ColorPoint.cs:69); in IEEE doubles `15.0 / 22 * 22` is 14.999999999999998 and `1.0 / 49 * 49` is 0.9999999999999999, so the index read back can be one less than the one stored. For example, MoveColorPoint to index 15 in a 23-colour palette stores an anchor under key 15 whose index reads back as 14, and setting NumberOfColors to 23 then moves it to 14 (Palette.cs:95-108, 223-226).
- Out-of-range casts: C# casts of doubles to `byte` outside [0,255] are unspecified or wrap. The model only casts values its contracts keep in range.
- Integer overflow of `int` is not modelled. For example, `stride * y` and `fromWidth * height` are unbounded.
- JSON attributes and serialization are not modelled, nor are the parameterless `RawLightedImage()` constructor and the property getters.
- `Bitmap` and `LockBits` are modelled as a fresh byte array, a stride parameter (at least `4 * width`) and a `lockFails` flag. `UnlockBits` is not modelled.
- `Debug.Assert` in GetBitmapDepth is not modelled: the palette size mismatch returns the blank bitmap, as in a release build.
- `IPalette` is the `Palette` class. `LightingUtil` takes the palette's anchors.
- `RgbType.RgbPart` is not part of this model. Its order is taken as blue, green, red, total, so Validate's loop covers indices 0 to 2.
- `MAX_HUE` is a public static field that could be reassigned. The model uses the constant 359.9.
- Palettes.Palette.GetColorPoint: C# returns the live anchor object, so a caller could mutate it. The model returns a fresh point with the anchor's state.
- Palettes.Palette.SetNumberOfColors: C# re-inserts the live anchor objects. An anchor moved onto a retry slot is therefore also changed for any caller still holding it. The model moves the anchor values only.
- Palettes.Palette.Clone: the loop over the entries lives in `CopyEntries`, and the new palette's anchors are assigned as a whole.
- Palettes.Palette.SpreadPinsEvenly: the loop over the anchors lives in `SpreadInOrder`.
- RenderPipeline.StretchColor: requires MinRgb[k] != MaxRgb[k] for each channel (`StretchBounds`). With equal bounds the source divides by zero in double arithmetic (RawLightedImage.cs:375, 433) and renders from an infinite or NaN stretch; that case is not modelled.
- RawImages.RawLightedImage.GetBitmap: in Contrast mode it requires `StretchBounds` of the display's contrast bounds, as StretchColor does, although DisplayInfo can hold equal bounds. The same holds for `SelectProcess`, `Draw` and `ChosenProcess`.
- Display.DisplayInfo.Valid: assumes MinRgb and MaxRgb are two distinct arrays of length 3. The public setters (DisplayInfo.cs:33-38) accept any arrays, so the source does not guarantee it.
- Display.DisplayInfo.Validate is private and never called in the source. It is modelled as a method of its own.
- Display.DisplayInfo.Clone: C# sets the mode and flags, copies the arrays, then sets the ranges. The model assigns every setting before copying the arrays. Both orders give the same object.
- RawImages.RawLightedImage.SetBlock: the two-dimensional source arrays are passed as their row-major flattening.
- RawImages.RawLightedImage.SetColorBlock: the source array is passed as its row-major flattening.
- The grid, ghost and output parameters of `GetMinMax`, `Render`, `SelectProcess` and `Draw` only name values for the contracts. The code does not read them.
- The eighteen bitmap routines of RawLightedImage are modelled as one dispatch (`ChosenProcess`, `SelectProcess`) and one render loop (`Render`) over a per-pixel transform. Each routine's own copy of the loop is not modelled separately.
