/** `Array.Copy` between a source and a two-dimensional destination, both
    seen through their row-major flattening: element [x,y] of an array
    with `h` elements per row sits at flat offset `x * h + y`. */
module FlatArrays {
  import opened Common

  /** The argument checks `Array.Copy(src, 0, dst, start, n)` makes, in
      order: a negative count, then a source shorter than the count, then a
      destination without room for the count from `start`. */
  function CopyCheck(srcLength: int, start: int, n: int, dstLength: int): (o: Outcome)
    ensures o == Pass <==> 0 <= n <= srcLength && start + n <= dstLength
    ensures n < 0 ==> o == Fail(NegativeCopyLength)
    ensures 0 <= n && srcLength < n ==> o == Fail(SourceTooShort)
    ensures 0 <= n <= srcLength && dstLength < start + n ==> o == Fail(DestinationTooShort)
  {
    if n < 0 then Fail(NegativeCopyLength)
    else if n > srcLength then Fail(SourceTooShort)
    else if start + n > dstLength then Fail(DestinationTooShort)
    else Pass
  }

  /** The `n` flat offsets of `dst` from `start` hold the source prefix in
      order; every other element kept its value. */
  twostate predicate FlatCopied<T>(dst: array2<T>, src: seq<T>, start: int, n: int)
    requires n <= |src|
    reads dst
  {
    forall x, y :: 0 <= x < dst.Length0 && 0 <= y < dst.Length1 ==>
      dst[x, y] == if start <= x * dst.Length1 + y < start + n then src[x * dst.Length1 + y - start] else old(dst[x, y])
  }

  /** `Array.Copy(src, 0, dst, start, n)`: the checks, then the copy. */
  method ArrayCopy<T>(src: seq<T>, dst: array2<T>, start: int, n: int) returns (o: Outcome)
    modifies dst
    ensures o == CopyCheck(|src|, start, n, dst.Length0 * dst.Length1)
    ensures o != Pass ==> unchanged(dst)
    ensures o == Pass ==> FlatCopied(dst, src, start, n)
  {
    o := CopyCheck(|src|, start, n, dst.Length0 * dst.Length1);
    if o == Pass {
      FlatCopy(src, dst, start, n);
    }
  }

  /** The element-by-element copy. */
  method FlatCopy<T>(src: seq<T>, dst: array2<T>, start: int, n: int)
    requires n <= |src|
    modifies dst
    ensures FlatCopied(dst, src, start, n)
  {
    var h := dst.Length1;
    for x := 0 to dst.Length0
      invariant forall i, j :: 0 <= i < x && 0 <= j < h ==>
        dst[i, j] == if start <= i * h + j < start + n then src[i * h + j - start] else old(dst[i, j])
      invariant forall i, j :: x <= i < dst.Length0 && 0 <= j < h ==> dst[i, j] == old(dst[i, j])
    {
      for y := 0 to h
        invariant forall i, j :: 0 <= i < x && 0 <= j < h ==>
          dst[i, j] == if start <= i * h + j < start + n then src[i * h + j - start] else old(dst[i, j])
        invariant forall j :: 0 <= j < y ==>
          dst[x, j] == if start <= x * h + j < start + n then src[x * h + j - start] else old(dst[x, j])
        invariant forall i, j :: x <= i < dst.Length0 && 0 <= j < h && (i != x || y <= j) ==> dst[i, j] == old(dst[i, j])
      {
        var k := x * h + y;
        if start <= k < start + n {
          dst[x, y] := src[k - start];
        }
      }
    }
  }

  lemma MulMonotone(a: int, b: int, h: int)
    requires a <= b && 0 <= h
    ensures a * h <= b * h
  {
    assert b * h - a * h == (b - a) * h;
  }

  /** A block of whole columns: for a copy of columns `fromWidth` to
      `toWidth` starting at the flat offset of column `fromWidth`, element
      [x,y] is overwritten exactly when `x` is one of those columns. */
  lemma {:induction false} ColumnsCopied(fromWidth: int, toWidth: int, h: int, x: int, y: int)
    requires 1 <= h && 0 <= y < h && fromWidth <= toWidth + 1
    ensures fromWidth * h <= x * h + y < fromWidth * h + (toWidth - fromWidth + 1) * h
      <==> fromWidth <= x <= toWidth
  {
    assert fromWidth * h + (toWidth - fromWidth + 1) * h == (toWidth + 1) * h;
    assert (x + 1) * h == x * h + h;
    if x < fromWidth {
      MulMonotone(x + 1, fromWidth, h);
    } else {
      MulMonotone(fromWidth, x, h);
    }
    if toWidth < x {
      MulMonotone(toWidth + 1, x, h);
    } else {
      MulMonotone(x + 1, toWidth + 1, h);
    }
  }

  /** With whole columns of height `h >= 1`, the copy checks pass exactly
      when the column range is not reversed by more than one, ends before
      column `width`, and the source holds enough elements. */
  lemma {:induction false} ColumnCopyFits(srcLength: int, fromWidth: int, toWidth: int, width: int, h: int)
    requires 1 <= h
    ensures CopyCheck(srcLength, fromWidth * h, (toWidth - fromWidth + 1) * h, width * h) == Pass
      <==> fromWidth <= toWidth + 1 && toWidth < width && (toWidth - fromWidth + 1) * h <= srcLength
  {
    var n := (toWidth - fromWidth + 1) * h;
    assert fromWidth * h + n == (toWidth + 1) * h;
    if toWidth + 1 < fromWidth {
      MulMonotone(toWidth - fromWidth + 1, -1, h);
    } else {
      MulMonotone(0, toWidth - fromWidth + 1, h);
    }
    if toWidth < width {
      MulMonotone(toWidth + 1, width, h);
    } else {
      MulMonotone(width + 1, toWidth + 1, h);
    }
  }

  /** `toWidth == width` passes the range check `0 <= toWidth <= width` yet
      asks for one column more than the destination has: the copy fails
      for lack of room whenever the source is long enough. */
  lemma {:induction false} LastColumnOverruns(srcLength: int, fromWidth: int, width: int, h: int)
    requires 1 <= h && 0 <= fromWidth <= width
    requires (width - fromWidth + 1) * h <= srcLength
    ensures CopyCheck(srcLength, fromWidth * h, (width - fromWidth + 1) * h, width * h) == Fail(DestinationTooShort)
  {
    MulMonotone(0, width - fromWidth + 1, h);
    assert fromWidth * h + (width - fromWidth + 1) * h == width * h + h;
  }
}
