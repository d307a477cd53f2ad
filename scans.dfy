/** The GetMinMax scans: column by column, row by row, a running minimum
    and maximum of one HSL component of every pixel, started from (360,0)
    for the hue and (1,0) for saturation and lightness. A scan is stated
    over the grid of component values; `Components` computes that grid
    from a grid of colours. */
module Scans {
  import opened Common
  import opened HslConversion
  import opened RenderPipeline

  /** A grid of colours indexed [x][y]: `width` columns of `height` rows. */
  type Grid = seq<seq<Color>>

  /** A grid of component values indexed [x][y]. */
  type Values = seq<seq<real>>

  predicate IsGrid<T>(g: seq<seq<T>>, width: int, height: int)
  {
    |g| == width && forall x :: 0 <= x < width ==> |g[x]| == height
  }

  /** Rows `0 .. y-1` of column `x` of the component values of `g`. */
  function ComponentColumn(g: Grid, ch: Channel, x: int, y: int): (col: seq<real>)
    requires 0 <= x < |g| && 0 <= y <= |g[x]|
    ensures |col| == y
    decreases y
  {
    if y == 0 then [] else ComponentColumn(g, ch, x, y - 1) + [Component(ToHsl(g[x][y - 1]), ch)]
  }

  /** Columns `0 .. x-1` of the component values of `g`. */
  function Components(g: Grid, ch: Channel, x: int, height: int): (v: Values)
    requires IsGrid(g, |g|, height) && 0 <= x <= |g|
    ensures IsGrid(v, x, height)
    decreases x
  {
    if x == 0 then []
    else
      assert |g[x - 1]| == height;
      Components(g, ch, x - 1, height) + [ComponentColumn(g, ch, x - 1, height)]
  }

  lemma {:induction false} ColumnValueAt(g: Grid, ch: Channel, x: int, y: int, j: int)
    requires 0 <= x < |g| && 0 <= j < y <= |g[x]|
    ensures ComponentColumn(g, ch, x, y)[j] == Component(ToHsl(g[x][j]), ch)
    decreases y
  {
    if j < y - 1 {
      ColumnValueAt(g, ch, x, y - 1, j);
    }
  }

  lemma {:induction false} ValueAtPrefix(g: Grid, ch: Channel, x: int, height: int, i: int, j: int)
    requires IsGrid(g, |g|, height) && 0 <= i < x <= |g| && 0 <= j < height
    ensures Components(g, ch, x, height)[i][j] == Component(ToHsl(g[i][j]), ch)
    decreases x
  {
    if i < x - 1 {
      ValueAtPrefix(g, ch, x - 1, height, i, j);
    } else {
      ColumnValueAt(g, ch, i, height, j);
    }
  }

  /** Entry (x,y) of the component grid is the component of colour (x,y). */
  lemma {:induction false} ValueAt(g: Grid, ch: Channel, height: int, x: int, y: int)
    requires IsGrid(g, |g|, height) && 0 <= x < |g| && 0 <= y < height
    ensures Components(g, ch, |g|, height)[x][y] == Component(ToHsl(g[x][y]), ch)
  {
    ValueAtPrefix(g, ch, |g|, height, x, y);
  }

  /** The scan of rows `0 .. y-1` of column `x`, starting from `acc`. */
  function ScanColumn(v: Values, acc: DbPair, x: int, y: int): (r: DbPair)
    requires 0 <= x < |v| && 0 <= y <= |v[x]|
    ensures r.min <= acc.min && acc.max <= r.max
    decreases y
  {
    if y == 0 then acc else Widen(ScanColumn(v, acc, x, y - 1), v[x][y - 1])
  }

  /** The scan of columns `0 .. x-1`, starting from `start`. */
  function ScanColumns(v: Values, start: DbPair, x: int, height: int): (r: DbPair)
    requires IsGrid(v, |v|, height) && 0 <= x <= |v|
    ensures r.min <= start.min && start.max <= r.max
    decreases x
  {
    if x == 0 then start
    else
      assert |v[x - 1]| == height;
      ScanColumn(v, ScanColumns(v, start, x - 1, height), x - 1, height)
  }

  /** What GetMinMax returns for an image whose colours are `g`: the scan
      of the whole component grid from the channel's starting pair. */
  function MinMax(g: Grid, ch: Channel, height: int): (r: DbPair)
    requires IsGrid(g, |g|, height)
    ensures r.min <= ComponentTop(ch) && 0.0 <= r.max
  {
    ScanColumns(Components(g, ch, |g|, height), ScanStart(ch), |g|, height)
  }

  /** A scan of part of a column only widens its starting pair, bounds
      every value it passes, and ends at its start or at a value it
      passed. */
  lemma {:induction false} ColumnScanBounds(v: Values, acc: DbPair, x: int, y: int)
    requires 0 <= x < |v| && 0 <= y <= |v[x]|
    ensures var r := ScanColumn(v, acc, x, y);
      r.min <= acc.min && acc.max <= r.max &&
      (forall j :: 0 <= j < y ==> r.min <= v[x][j] <= r.max) &&
      (r.min == acc.min || exists j :: 0 <= j < y && r.min == v[x][j]) &&
      (r.max == acc.max || exists j :: 0 <= j < y && r.max == v[x][j])
    decreases y
  {
    if y > 0 {
      ColumnScanBounds(v, acc, x, y - 1);
    }
  }

  /** The scan of the first `x` columns only widens its starting pair and
      bounds every value in those columns. */
  lemma {:induction false} ScanBounds(v: Values, start: DbPair, x: int, height: int)
    requires IsGrid(v, |v|, height) && 0 <= x <= |v|
    ensures var r := ScanColumns(v, start, x, height);
      r.min <= start.min && start.max <= r.max &&
      (forall i, j :: 0 <= i < x && 0 <= j < height ==> r.min <= v[i][j] <= r.max)
    decreases x
  {
    if x > 0 {
      ScanBounds(v, start, x - 1, height);
      var acc := ScanColumns(v, start, x - 1, height);
      assert |v[x - 1]| == height;
      ColumnScanBounds(v, acc, x - 1, height);
    }
  }

  /** The scan of the first `x` columns ends at its starting pair or at
      values it passed. */
  lemma {:induction false} ScanReached(v: Values, start: DbPair, x: int, height: int)
    requires IsGrid(v, |v|, height) && 0 <= x <= |v|
    ensures var r := ScanColumns(v, start, x, height);
      (r.min == start.min || exists i, j :: 0 <= i < x && 0 <= j < height && r.min == v[i][j]) &&
      (r.max == start.max || exists i, j :: 0 <= i < x && 0 <= j < height && r.max == v[i][j])
    decreases x
  {
    if x > 0 {
      ScanReached(v, start, x - 1, height);
      var acc := ScanColumns(v, start, x - 1, height);
      assert |v[x - 1]| == height;
      ColumnScanBounds(v, acc, x - 1, height);
      var r := ScanColumns(v, start, x, height);
      if r.min != acc.min {
        var j :| 0 <= j < height && r.min == v[x - 1][j];
        assert 0 <= x - 1 < x && r.min == v[x - 1][j];
      }
      if r.max != acc.max {
        var j :| 0 <= j < height && r.max == v[x - 1][j];
        assert 0 <= x - 1 < x && r.max == v[x - 1][j];
      }
    }
  }

  /** The whole scan of a non-empty grid whose first value lies within the
      starting pair: every value lies between the returned minimum and
      maximum, and both are attained. */
  lemma {:induction false} ScanAttained(v: Values, start: DbPair, height: int)
    requires IsGrid(v, |v|, height) && 1 <= |v| && 1 <= height
    requires start.max <= v[0][0] <= start.min
    ensures var r := ScanColumns(v, start, |v|, height);
      (forall i, j :: 0 <= i < |v| && 0 <= j < height ==> r.min <= v[i][j] <= r.max) &&
      (exists i, j :: 0 <= i < |v| && 0 <= j < height && r.min == v[i][j]) &&
      (exists i, j :: 0 <= i < |v| && 0 <= j < height && r.max == v[i][j])
  {
    ScanBounds(v, start, |v|, height);
    ScanReached(v, start, |v|, height);
    var r := ScanColumns(v, start, |v|, height);
    assert r.min <= v[0][0] <= r.max;
  }

  /** The GetMinMax result for a non-empty image bounds the component of
      every pixel. */
  lemma {:induction false} MinMaxBoundsPixel(g: Grid, ch: Channel, height: int, x: int, y: int)
    requires IsGrid(g, |g|, height) && 0 <= x < |g| && 0 <= y < height
    ensures var r := MinMax(g, ch, height);
      r.min <= Component(ToHsl(g[x][y]), ch) <= r.max
  {
    var v := Components(g, ch, |g|, height);
    ScanBounds(v, ScanStart(ch), |g|, height);
    ValueAt(g, ch, height, x, y);
  }

  /** The GetMinMax result for a non-empty image is the minimum and the
      maximum of the component over its pixels: both are attained. */
  lemma {:induction false} MinMaxAttained(g: Grid, ch: Channel, height: int)
    requires IsGrid(g, |g|, height) && 1 <= |g| && 1 <= height
    ensures var r := MinMax(g, ch, height);
      (exists x, y :: 0 <= x < |g| && 0 <= y < height && r.min == Component(ToHsl(g[x][y]), ch)) &&
      (exists x, y :: 0 <= x < |g| && 0 <= y < height && r.max == Component(ToHsl(g[x][y]), ch))
  {
    var v := Components(g, ch, |g|, height);
    ValueAt(g, ch, height, 0, 0);
    ComponentInRange(g[0][0], ch);
    ScanAttained(v, ScanStart(ch), height);
    var r := ScanColumns(v, ScanStart(ch), |g|, height);
    var i, j :| 0 <= i < |v| && 0 <= j < height && r.min == v[i][j];
    var k, l :| 0 <= k < |v| && 0 <= l < height && r.max == v[k][l];
    ValueAt(g, ch, height, i, j);
    ValueAt(g, ch, height, k, l);
  }
}
