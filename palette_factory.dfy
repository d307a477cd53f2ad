/** PaletteFactory: ready-made palettes built by adding anchors one at a time
    to an empty palette. */
module PaletteFactories {
  import opened Common
  import opened ColorPoints
  import opened PaletteMaps
  import opened PaletteLaws
  import opened Palettes

  /** The spacing of the six inner anchors of the standard palette. */
  const SubDivision: real := 1.0 / 7.0

  /** The anchors of the standard palette in position order: black at 0,
      six colours at k/7 and white at 1. */
  const StandardPins: seq<Point> := [
    Point(Black, 0.0),
    Point(Magenta, SubDivision),
    Point(Blue, 2.0 * SubDivision),
    Point(Turquoise, 3.0 * SubDivision),
    Point(Green, 4.0 * SubDivision),
    Point(Yellow, 5.0 * SubDivision),
    Point(Red, 6.0 * SubDivision),
    Point(White, 1.0)]

  /** The index the k-th standard anchor lands on in a palette of n colours:
      the integer part of k(n-1)/7. */
  function StandardKey(k: int, n: int): (key: int)
    requires 0 <= k <= 7 && 2 <= n
    ensures 0 <= key <= n - 1
    ensures k == 0 ==> key == 0
    ensures k == 7 ==> key == n - 1
    ensures 7 * key <= k * (n - 1) < 7 * key + 7
  {
    if k == 0 then 0 else if k == 7 then n - 1 else k * (n - 1) / 7
  }

  /** A palette holding only its two ends: `low` at index 0 and `high` at the
      last index. */
  function EndPins(n: int, low: Color, high: Color): (m: PointMap)
    requires 2 <= n
    ensures m.Keys == {0, n - 1} && |m| == 2
    ensures m[0] == Point(low, 0.0) && m[n - 1] == Point(high, 1.0)
  {
    map[0 := Point(low, 0.0), n - 1 := Point(high, 1.0)]
  }

  /** Black and white at the ends plus the inner standard anchors 1..j, as
      the standard palette holds them after adding its j-th inner colour. */
  function StandardUpTo(n: int, j: int): (m: PointMap)
    requires 8 <= n && 0 <= j <= 6
    ensures forall key :: key in m ==> key <= StandardKey(j, n) || key == n - 1
    ensures StandardKey(0, n) in m && StandardKey(7, n) in m
    decreases j
  {
    if j == 0 then EndPins(n, Black, White)
    else
      StandardKeysIncrease(j - 1, j, n);
      StandardUpTo(n, j - 1)[StandardKey(j, n) := StandardPins[j]]
  }

  /** The anchors CreateStandardPalette ends with: black and white, and from
      8 colours on the six inner colours as well. */
  function StandardMap(n: int): (m: PointMap)
    requires 2 <= n
    ensures 0 in m && m[0] == Point(Black, 0.0)
    ensures n - 1 in m && m[n - 1] == Point(White, 1.0)
  {
    if n < 8 then EndPins(n, Black, White) else StandardUpTo(n, 6)
  }

  /** The anchors CreatePaletteFromPins ends with: black and white for an
      empty list, otherwise the given anchors added in list order. */
  function FromPins(n: int, ps: seq<Point>): (r: Result<PointMap>)
    ensures r.Success? ==> |r.value| <= if |ps| == 0 then 2 else |ps|
  {
    AddAll(map[], n, if |ps| == 0 then [Point(Black, 0.0), Point(White, 1.0)] else ps)
  }

  /** The state of every point of a list, in list order. */
  function Values(pts: seq<ColorPoint>): (ps: seq<Point>)
    reads pts
    ensures |ps| == |pts|
    ensures forall i :: 0 <= i < |pts| ==> ps[i] == pts[i].Value()
  {
    seq(|pts|, i requires 0 <= i < |pts| reads pts => pts[i].Value())
  }

  /** Every standard anchor lies in [0,1] and lands on its standard key. */
  lemma {:induction false} StandardIndex(k: int, n: int)
    requires 0 <= k <= 7 && 2 <= n
    ensures 0.0 <= StandardPins[k].position <= 1.0
    ensures ColorIndex(StandardPins[k].position, n) == Success(StandardKey(k, n))
  {
    var c := (n - 1) as real;
    var x := StandardPins[k].position * c;
    assert StandardPins[k].position == k as real / 7.0;
    ScaledSeventh(k, n - 1, x);
    var t := Trunc(x);
    assert 7 * t <= k * (n - 1) < 7 * t + 7;
  }

  /** (k/7) * c is the integer k*c divided by 7. */
  lemma ScaledSeventh(k: int, c: int, x: real)
    requires 0 <= k && 0 <= c && x == (k as real / 7.0) * c as real
    ensures 7.0 * x == (k * c) as real
  {
    assert (k * c) as real == k as real * c as real;
  }

  /** With at least 8 colours the standard keys strictly increase, so no two
      standard anchors collide. */
  lemma {:induction false} StandardKeysIncrease(j: int, k: int, n: int)
    requires 0 <= j < k <= 7 && 8 <= n
    ensures StandardKey(j, n) < StandardKey(k, n)
  {
    var a := StandardKey(j, n);
    var b := StandardKey(k, n);
    assert (k - j) * (n - 1) >= 7 by {
      assert k - j >= 1 && n - 1 >= 7;
      MulAtLeast(k - j, n - 1);
    }
    assert k * (n - 1) == j * (n - 1) + (k - j) * (n - 1);
  }

  lemma MulAtLeast(a: int, b: int)
    requires a >= 1 && b >= 7
    ensures a * b >= 7
  {
  }

  /** The standard palette keeps every standard anchor: two below 8 colours,
      all eight from 8 colours on, each at its standard key. */
  lemma {:induction false} StandardMapShape(n: int)
    requires 2 <= n
    ensures n < 8 ==> StandardMap(n) == EndPins(n, Black, White)
    ensures 8 <= n ==> |StandardMap(n)| == 8
    ensures 8 <= n ==> forall k :: 0 <= k <= 7 ==>
      StandardKey(k, n) in StandardMap(n) && StandardMap(n)[StandardKey(k, n)] == StandardPins[k]
  {
    if 8 <= n {
      StandardUpToShape(n, 6);
    }
  }

  /** After the j-th inner colour the palette holds j + 2 anchors: the two
      ends and inner anchors 1..j, each at its standard key. */
  lemma {:induction false} StandardUpToShape(n: int, j: int)
    requires 8 <= n && 0 <= j <= 6
    ensures |StandardUpTo(n, j)| == j + 2
    ensures forall k :: (0 <= k <= j || k == 7) ==>
      StandardKey(k, n) in StandardUpTo(n, j) && StandardUpTo(n, j)[StandardKey(k, n)] == StandardPins[k]
    decreases j
  {
    if 0 < j {
      StandardUpToShape(n, j - 1);
      StandardKeysIncrease(j - 1, j, n);
      StandardKeysIncrease(j, 7, n);
      var m := StandardUpTo(n, j - 1);
      assert StandardKey(j, n) !in m;
      forall k | 0 <= k < j
        ensures StandardKey(k, n) != StandardKey(j, n)
      {
        StandardKeysIncrease(k, j, n);
      }
    }
  }

  /** Every anchor of the standard palette sits at the index its position
      maps to. */
  lemma {:induction false} StandardMapAnchored(n: int)
    requires 2 <= n
    ensures Anchored(StandardMap(n), n)
  {
    if n < 8 {
      EndPinsAnchored(n, Black, White);
    } else {
      StandardUpToAnchored(n, 6);
    }
  }

  lemma {:induction false} StandardUpToAnchored(n: int, j: int)
    requires 8 <= n && 0 <= j <= 6
    ensures Anchored(StandardUpTo(n, j), n)
    decreases j
  {
    if j == 0 {
      EndPinsAnchored(n, Black, White);
    } else {
      StandardUpToAnchored(n, j - 1);
      StandardIndex(j, n);
    }
  }

  /** The two-anchor palette is well formed whatever its two colours. */
  lemma {:induction false} EndPinsAnchored(n: int, low: Color, high: Color)
    requires 2 <= n
    ensures Anchored(EndPins(n, low, high), n)
  {
    IndexInRange(1.0, n);
    assert ColorIndex(0.0, n) == Success(0);
  }

  /** Adding the k-th standard anchor where its key is free stores it there. */
  lemma StandardPinLands(m: PointMap, n: int, k: int)
    requires 0 <= k <= 7 && 2 <= n && StandardKey(k, n) !in m
    ensures AddPoint(m, n, StandardPins[k]) == Success(m[StandardKey(k, n) := StandardPins[k]])
  {
    StandardIndex(k, n);
  }

  /** Adding the j-th inner colour to the palette that holds the anchors
      before it stores it at its standard key. */
  lemma {:induction false} StandardNext(n: int, j: int)
    requires 8 <= n && 1 <= j <= 6
    ensures AddPoint(StandardUpTo(n, j - 1), n, StandardPins[j]) == Success(StandardUpTo(n, j))
  {
    StandardKeysIncrease(j - 1, j, n);
    StandardKeysIncrease(j, 7, n);
    StandardPinLands(StandardUpTo(n, j - 1), n, j);
  }

  /** A palette of fewer than two colours cannot take a single anchor, so
      building one from pins always fails. */
  lemma {:induction false} FromPinsTooFew(n: int, ps: seq<Point>)
    requires n < 2
    ensures FromPins(n, ps) == Failure(TooFewColors)
  {
    var qs := if |ps| == 0 then [Point(Black, 0.0), Point(White, 1.0)] else ps;
    AddAllTooFew(n, qs);
  }

  lemma {:induction false} AddAllTooFew(n: int, ps: seq<Point>)
    requires n < 2 && |ps| > 0
    ensures AddAll(map[], n, ps) == Failure(TooFewColors)
    decreases |ps|
  {
    if |ps| > 1 {
      AddAllTooFew(n, ps[..|ps| - 1]);
    }
  }

  /** Pins with positions in [0,1] always make a well-formed palette once it
      has at least two colours. */
  lemma {:induction false} FromPinsAnchored(n: int, ps: seq<Point>)
    requires 2 <= n
    requires forall i :: 0 <= i < |ps| ==> 0.0 <= ps[i].position <= 1.0
    ensures FromPins(n, ps).Success? && Anchored(FromPins(n, ps).value, n)
  {
    var qs := if |ps| == 0 then [Point(Black, 0.0), Point(White, 1.0)] else ps;
    AddAllAnchored(map[], n, qs);
  }

  /** With no pins the palette gets black and white at its two ends. */
  lemma {:induction false} FromNoPins(n: int)
    requires 2 <= n
    ensures FromPins(n, []) == Success(EndPins(n, Black, White))
  {
    var m1 := map[0 := Point(Black, 0.0)];
    StandardPinLands(map[], n, 0);
    assert map[][StandardKey(0, n) := StandardPins[0]] == m1;
    StandardPinLands(m1, n, 7);
    assert m1[StandardKey(7, n) := StandardPins[7]] == EndPins(n, Black, White);
    AddTwo(n, Point(Black, 0.0), Point(White, 1.0), m1, EndPins(n, Black, White));
  }

  /** Adding two points one after the other. */
  lemma AddTwo(n: int, p: Point, q: Point, m1: PointMap, m2: PointMap)
    requires AddPoint(map[], n, p) == Success(m1) && AddPoint(m1, n, q) == Success(m2)
    ensures AddAll(map[], n, [p, q]) == Success(m2)
  {
    var qs := [p, q];
    assert qs[..0] == [];
    AddAllSnoc(map[], n, qs, 1, map[]);
    AddAllSnoc(map[], n, qs, 2, m1);
    assert qs[..2] == qs;
  }

  /** The two additions CreatePaletteFromPins makes for an empty list, one
      at a time: black fails exactly when there are fewer than two colours,
      and white then completes the two-anchor palette. */
  lemma {:induction false} FromNoPinsSteps(n: int)
    ensures n < 2 ==> AddPoint(map[], n, Point(Black, 0.0)) == Failure(TooFewColors)
    ensures n < 2 ==> FromPins(n, []) == Failure(TooFewColors)
    ensures 2 <= n ==> AddPoint(map[], n, Point(Black, 0.0)) == Success(map[0 := Point(Black, 0.0)])
    ensures 2 <= n ==> AddPoint(map[0 := Point(Black, 0.0)], n, Point(White, 1.0)) == Success(EndPins(n, Black, White))
    ensures 2 <= n ==> FromPins(n, []) == Success(EndPins(n, Black, White))
  {
    if n < 2 {
      FromPinsTooFew(n, []);
    } else {
      StandardPinLands(map[], n, 0);
      StandardPinLands(map[0 := Point(Black, 0.0)], n, 7);
      FromNoPins(n);
    }
  }

  /** CreateStandardPalette: black and white at the ends, and from 8 colours
      on six more colours at sevenths in between. */
  method CreateStandardPalette(n: int) returns (r: Result<Palette>)
    ensures n < 2 ==> r == Failure(PaletteTooSmall)
    ensures 2 <= n ==> r.Success? && fresh(r.value)
    ensures r.Success? ==>
      r.value.numberOfColors == n && r.value.name == "Default"
      && r.value.points == StandardMap(n) && r.value.Valid()
  {
    if n < 2 {
      return Failure(PaletteTooSmall);
    }
    var palette := new Palette(n);
    // every anchor here has a position in [0,1], so no addition throws
    var black := new ColorPoint(Black, 0.0);
    StandardPinLands(palette.points, n, 0);
    var o := palette.AddColorPoint(black);
    var white := new ColorPoint(White, 1.0);
    StandardPinLands(palette.points, n, 7);
    o := palette.AddColorPoint(white);
    StandardMapAnchored(n);
    if n < 8 {
      return Success(palette);
    }
    assert palette.points == StandardUpTo(n, 0);
    // magenta, blue, turquoise, green, yellow and red, at k/7 for k = 1..6
    AddStandardPin(palette, 1);
    AddStandardPin(palette, 2);
    AddStandardPin(palette, 3);
    AddStandardPin(palette, 4);
    AddStandardPin(palette, 5);
    AddStandardPin(palette, 6);
    return Success(palette);
  }

  /** One of the six inner additions of CreateStandardPalette: a new point
      with the j-th standard colour at j/7, added to the palette. */
  method AddStandardPin(palette: Palette, j: int)
    requires 8 <= palette.numberOfColors && 1 <= j <= 6
    requires palette.points == StandardUpTo(palette.numberOfColors, j - 1)
    modifies palette
    ensures palette.numberOfColors == old(palette.numberOfColors) && palette.name == old(palette.name)
    ensures palette.points == StandardUpTo(palette.numberOfColors, j)
  {
    var point := new ColorPoint(StandardPins[j].color, StandardPins[j].position);
    StandardNext(palette.numberOfColors, j);
    var o := palette.AddColorPoint(point);
  }

  /** CreatePaletteFromPins: the count is not checked; the pins are added in
      list order (black and white when the list is empty), and the first
      addition that throws ends the call. */
  method CreatePaletteFromPins(n: int, pts: seq<ColorPoint>) returns (r: Result<Palette>)
    ensures FromPins(n, Values(pts)).Failure? ==> r == Failure(FromPins(n, Values(pts)).error)
    ensures FromPins(n, Values(pts)).Success? ==>
      r.Success? && fresh(r.value) && r.value.numberOfColors == n && r.value.name == "Default"
      && r.value.points == FromPins(n, Values(pts)).value
  {
    ghost var ps := Values(pts);
    var palette := new Palette(n);
    var o: Outcome;
    if |pts| < 1 {
      o := AddBlackAndWhite(palette);
    } else {
      o := AddPins(palette, pts, ps);
      assert FromPins(n, ps) == AddAll(map[], n, ps);
    }
    if o.Fail? {
      return Failure(o.error);
    }
    return Success(palette);
  }

  /** CreatePaletteFromPins for an empty list: black at 0, then white at 1. */
  method AddBlackAndWhite(palette: Palette) returns (o: Outcome)
    requires palette.points == map[]
    modifies palette
    ensures palette.numberOfColors == old(palette.numberOfColors) && palette.name == old(palette.name)
    ensures FromPins(palette.numberOfColors, []).Failure? ==> o == Fail(FromPins(palette.numberOfColors, []).error)
    ensures FromPins(palette.numberOfColors, []).Success? ==>
      o == Pass && palette.points == FromPins(palette.numberOfColors, []).value
  {
    FromNoPinsSteps(palette.numberOfColors);
    var black := new ColorPoint(Black, 0.0);
    o := palette.AddColorPoint(black);
    if o.Fail? {
      return;
    }
    // once black is in, the palette has at least two colours and white lands at the last index
    var white := new ColorPoint(White, 1.0);
    o := palette.AddColorPoint(white);
  }

  /** CreatePaletteFromPins for a non-empty list: the points in list order,
      stopping at the first addition that throws. `ps` names their states. */
  method AddPins(palette: Palette, pts: seq<ColorPoint>, ghost ps: seq<Point>) returns (o: Outcome)
    requires palette.points == map[] && 0 < |pts| && ps == Values(pts)
    modifies palette
    ensures palette.numberOfColors == old(palette.numberOfColors) && palette.name == old(palette.name)
    ensures AddAll(map[], palette.numberOfColors, ps).Failure? ==>
      o == Fail(AddAll(map[], palette.numberOfColors, ps).error)
    ensures AddAll(map[], palette.numberOfColors, ps).Success? ==>
      o == Pass && palette.points == AddAll(map[], palette.numberOfColors, ps).value
  {
    var n := palette.numberOfColors;
    var i := 0;
    assert ps[..0] == [];
    while i < |pts|
      invariant 0 <= i <= |pts| == |ps|
      invariant palette.numberOfColors == n && palette.name == old(palette.name)
      invariant forall j :: 0 <= j < |pts| ==> pts[j].Value() == ps[j]
      invariant AddAll(map[], n, ps[..i]) == Success(palette.points)
    {
      o := AddPin(palette, pts[i], ps, i);
      if o.Fail? {
        AddAllFailureSticks(map[], n, ps, i + 1);
        assert AddAll(map[], n, ps) == Failure(o.error);
        return;
      }
      i := i + 1;
    }
    assert ps[..i] == ps;
    assert AddAll(map[], n, ps) == Success(palette.points);
    o := Pass;
  }

  /** One step of AddPins: adding the i-th pin extends the fold over the
      pins before it by one more AddPoint. */
  method AddPin(palette: Palette, pt: ColorPoint, ghost ps: seq<Point>, i: nat) returns (o: Outcome)
    requires i < |ps| && pt.Value() == ps[i]
    requires AddAll(map[], palette.numberOfColors, ps[..i]) == Success(palette.points)
    modifies palette
    ensures palette.numberOfColors == old(palette.numberOfColors) && palette.name == old(palette.name)
    ensures o.Fail? ==> AddAll(map[], palette.numberOfColors, ps[..i + 1]) == Failure(o.error)
    ensures o.Pass? ==> AddAll(map[], palette.numberOfColors, ps[..i + 1]) == Success(palette.points)
  {
    AddAllSnoc(map[], palette.numberOfColors, ps, i + 1, palette.points);
    o := palette.AddColorPoint(pt);
  }

  /** CreateTwoPinPalette: `low` at index 0 and `high` at the last index. */
  method CreateTwoPinPalette(n: int, low: Color, high: Color) returns (r: Result<Palette>)
    ensures n < 2 ==> r == Failure(PaletteTooSmall)
    ensures 2 <= n ==> r.Success? && fresh(r.value)
    ensures r.Success? ==>
      r.value.numberOfColors == n && r.value.name == "Default"
      && r.value.points == EndPins(n, low, high) && r.value.Valid()
  {
    if n < 2 {
      return Failure(PaletteTooSmall);
    }
    var palette := new Palette(n);
    // both positions are in [0,1], so neither addition throws
    var lowPoint := new ColorPoint(low, 0.0);
    assert ColorIndex(0.0, n) == Success(0);
    var o := palette.AddColorPoint(lowPoint);
    var highPoint := new ColorPoint(high, 1.0);
    IndexInRange(1.0, n);
    o := palette.AddColorPoint(highPoint);
    return Success(palette);
  }
}
