/** The layout of a 32-bit bitmap in memory: pixel (x,y) occupies the four
    bytes starting at `stride * y + 4 * x`, and a row may be padded beyond
    `4 * width` bytes. The predicates here say which byte offsets belong to
    a pixel and which pixels a row-by-column render has reached. */
module Raster {
  import opened Common
  import opened RenderPipeline
  import opened Scans

  /** Offset `k` is one of the four bytes of a pixel of a
      `width` x `height` image. */
  predicate InImage(k: int, stride: int, width: int, height: int)
    requires 0 < stride
  {
    0 <= k && k % stride < 4 * width && k / stride < height
  }

  /** Offset `k` is a byte of a pixel that a render visiting columns in
      order, and the rows of each column in order, has written before
      reaching pixel (x,y). */
  predicate Before(k: int, stride: int, width: int, height: int, x: int, y: int)
    requires 0 < stride
  {
    InImage(k, stride, width, height) &&
    ((k % stride) / 4 < x || ((k % stride) / 4 == x && k / stride < y))
  }

  /** Division with remainder is unique. */
  lemma {:induction false} DivModUnique(k: int, d: int, q: int, r: int)
    requires 0 < d && 0 <= r < d && k == d * q + r
    ensures k / d == q && k % d == r
  {
    var q', r' := k / d, k % d;
    assert k == d * q' + r' && 0 <= r' < d;
    assert d * (q - q') == r' - r;
    if q < q' {
      MulAtLeast(d, q' - q);
      assert false;
    } else if q' < q {
      MulAtLeast(d, q - q');
      assert false;
    }
  }

  lemma MulAtLeast(d: int, n: int)
    requires 0 < d && 1 <= n
    ensures d <= d * n
  {
  }

  /** Byte `c` of pixel (x,y) lies in row `y` at column `4 * x + c`. */
  lemma {:induction false} SlotOfPos(stride: int, width: int, x: int, y: int, c: int)
    requires 4 * width <= stride && 0 <= x < width && 0 <= c < 4
    ensures (stride * y + 4 * x + c) / stride == y
    ensures (stride * y + 4 * x + c) % stride == 4 * x + c
  {
    DivModUnique(stride * y + 4 * x + c, stride, y, 4 * x + c);
  }

  /** The offset of byte `c` of pixel (x,y) belongs to the image. */
  lemma {:induction false} SlotInImage(stride: int, width: int, height: int, x: int, y: int, c: int)
    requires 4 * width <= stride && 0 <= x < width && 0 <= y < height && 0 <= c < 4
    ensures InImage(stride * y + 4 * x + c, stride, width, height)
  {
    SlotOfPos(stride, width, x, y, c);
    assert 0 <= stride * y;
  }

  /** An offset is its row times the stride plus its column. */
  lemma RowAndColumn(k: int, stride: int)
    requires 0 <= k && 0 < stride
    ensures k == stride * (k / stride) + k % stride
    ensures 0 <= k % stride < stride && 0 <= k / stride
  {
  }

  /** Nothing is written before the first pixel. */
  lemma {:induction false} NoneBefore(stride: int, width: int, height: int)
    requires 0 < stride
    ensures forall k :: 0 <= k ==> !Before(k, stride, width, height, 0, 0)
  {
    forall k | 0 <= k
      ensures !Before(k, stride, width, height, 0, 0)
    {
      RowAndColumn(k, stride);
    }
  }

  /** Writing pixel (x,y) adds exactly its four bytes to what is written. */
  lemma {:induction false} RowStep(stride: int, width: int, height: int, x: int, y: int)
    requires 4 * width <= stride && 0 <= x < width && 0 <= y < height
    ensures forall k :: 0 <= k ==>
      (Before(k, stride, width, height, x, y + 1) <==>
        Before(k, stride, width, height, x, y) || stride * y + 4 * x <= k < stride * y + 4 * x + 4)
  {
    forall k | 0 <= k
      ensures Before(k, stride, width, height, x, y + 1) <==>
        Before(k, stride, width, height, x, y) || stride * y + 4 * x <= k < stride * y + 4 * x + 4
    {
      RowAndColumn(k, stride);
      var pos := stride * y + 4 * x;
      if pos <= k < pos + 4 {
        SlotOfPos(stride, width, x, y, k - pos);
        SlotInImage(stride, width, height, x, y, k - pos);
      }
    }
  }

  /** Finishing column `x` is starting column `x + 1`. */
  lemma {:induction false} ColumnStep(stride: int, width: int, height: int, x: int)
    requires 0 < stride
    ensures forall k :: 0 <= k ==>
      (Before(k, stride, width, height, x + 1, 0) <==> Before(k, stride, width, height, x, height))
  {
    forall k | 0 <= k
      ensures Before(k, stride, width, height, x + 1, 0) <==> Before(k, stride, width, height, x, height)
    {
      RowAndColumn(k, stride);
    }
  }

  /** The four bytes of pixel (x,y) fit in `height` rows of `stride` bytes. */
  lemma {:induction false} SlotFits(stride: int, width: int, height: int, x: int, y: int)
    requires 4 * width <= stride && 0 <= x < width && 0 <= y < height
    ensures 0 <= stride * y && stride * y + 4 * x + 4 <= stride * height
  {
    assert stride * height - stride * y == stride * (height - y);
    MulAtLeast(stride, height - y);
  }

  /** After the last column every pixel byte has been written. */
  lemma {:induction false} AllBefore(stride: int, width: int, height: int)
    requires 0 < stride && 4 * width <= stride
    ensures forall k :: 0 <= k ==>
      (Before(k, stride, width, height, width, 0) <==> InImage(k, stride, width, height))
  {
  }

  /** The byte a render of the colour grid `g` writes at offset `k`: byte
      `(k % stride) % 4` (B, G, R, A) of the colour at column
      `(k % stride) / 4` and row `k / stride`. */
  function GridByte(g: Grid, stride: int, width: int, height: int, k: int): byte
    requires 0 < stride && IsGrid(g, width, height) && InImage(k, stride, width, height)
  {
    ByteOf(g[(k % stride) / 4][k / stride], (k % stride) % 4)
  }

  /** Byte `c` of the four at `stride * y + 4 * x` belongs to the image and
      is byte `c` (B, G, R, A) of the colour at (x,y). */
  lemma {:induction false} PixelBytes(g: Grid, stride: int, width: int, height: int, x: int, y: int, c: int)
    requires IsGrid(g, width, height) && 4 * width <= stride
    requires 0 <= x < width && 0 <= y < height && 0 <= c < 4
    ensures 0 < stride && InImage(stride * y + 4 * x + c, stride, width, height)
    ensures GridByte(g, stride, width, height, stride * y + 4 * x + c) == ByteOf(g[x][y], c)
  {
    SlotOfPos(stride, width, x, y, c);
    SlotInImage(stride, width, height, x, y, c);
    DivModUnique(4 * x + c, 4, x, c);
  }
}
