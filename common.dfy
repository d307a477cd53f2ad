/** Values shared by the whole model: System.Drawing's ARGB colour, the
    lighting vector, the C# numeric conversions the library relies on, and
    the outcomes that stand for the exceptions it throws. */
module Common {

  /** An unsigned 8-bit value (C# `byte`). */
  type byte = x: int | 0 <= x < 256

  /** System.Drawing.Color reduced to its four channels. */
  datatype Color = Color(a: byte, r: byte, g: byte, b: byte)

  // The named System.Drawing colours the library uses (all opaque).
  const White := Color(255, 255, 255, 255)
  const Black := Color(255, 0, 0, 0)
  const Magenta := Color(255, 255, 0, 255)
  const Blue := Color(255, 0, 0, 255)
  const Turquoise := Color(255, 64, 224, 208)
  const Green := Color(255, 0, 128, 0)
  const Yellow := Color(255, 255, 255, 0)
  const Red := Color(255, 255, 0, 0)

  /** System.Numerics.Vector3; its float components are read as reals. */
  datatype Vec3 = Vec3(x: real, y: real, z: real)

  const ZeroVec := Vec3(0.0, 0.0, 0.0)

  /** Every exception the core throws, one variant per distinct throw site,
      so that the order in which an operation checks its arguments shows. */
  datatype Error =
      // ColorPointException
    | PositionOutOfRange       // Position setter: value outside [0,1]
    | TooFewColors             // numberOfColors < 2
    | NegativeIndex            // SetPositionByIndex: index < 0
    | IndexNotBelowCount       // SetPositionByIndex: index >= numberOfColors
      // PaletteException
    | PaletteTooSmall          // factory: numberOfColors < 2
    | PointNotFound            // no point at the index
    | OldIndexOutOfRange
    | NewIndexOutOfRange
    | IndexOccupied
      // InvalidOperationException: a depth-only operation on a colour image or vice versa
    | ModeMismatch
      // ArgumentException raised by SetBlock's own checks
    | HeightMismatch
    | DepthMismatch
    | FromWidthOutOfRange
    | ToWidthOutOfRange
      // raised by Array.Copy inside SetBlock
    | NegativeCopyLength       // ArgumentOutOfRangeException
    | SourceTooShort           // ArgumentException
    | DestinationTooShort      // ArgumentException
      // ImageException: the bitmap could not be locked for writing
    | LockFailed

  /** The value of a call that either returns or throws. */
  datatype Result<+T> = Success(value: T) | Failure(error: Error)

  /** The outcome of a void call that either returns or throws. */
  datatype Outcome = Pass | Fail(error: Error)

  datatype Option<+T> = None | Some(value: T)

  /** A C# cast from floating point to an integer type: truncation toward zero. */
  function Trunc(x: real): (n: int)
    ensures 0.0 <= x ==> 0 <= n && n as real <= x < n as real + 1.0
    ensures x < 0.0 ==> n <= 0 && n as real - 1.0 < x <= n as real
  {
    if x >= 0.0 then x.Floor else -((-x).Floor)
  }

  /** Truncation of non-negative values preserves their order. */
  lemma TruncMonotone(x: real, y: real)
    requires 0.0 <= x <= y
    ensures Trunc(x) <= Trunc(y)
  {
    assert Trunc(x) as real <= x <= y < Trunc(y) as real + 1.0;
  }

  /** A product with a positive factor has the sign of the other factor. */
  lemma SignOfProduct(a: real, k: real)
    requires k > 0.0
    ensures a * k > 0.0 <==> a > 0.0
    ensures a * k == 0.0 <==> a == 0.0
  {
    if a > 0.0 {
      assert a * k > 0.0;
    } else if a < 0.0 {
      assert (-a) * k > 0.0;
    }
  }

  /** `Math.Min(Math.Max(x, lo), hi)` on integers. */
  function ClampInt(x: int, lo: int, hi: int): (r: int)
    requires lo <= hi
    ensures lo <= r <= hi
    ensures lo <= x <= hi ==> r == x
    ensures x < lo ==> r == lo
    ensures hi < x ==> r == hi
  {
    if x < lo then lo else if x > hi then hi else x
  }

  /** `Math.Min(Math.Max(x, lo), hi)` on reals: the `double` overload of
      `Math.Clamp`, used where the source clamps light and HSL values. */
  function ClampReal(x: real, lo: real, hi: real): (r: real)
    requires lo <= hi
    ensures lo <= r <= hi
    ensures lo <= x <= hi ==> r == x
    ensures x < lo ==> r == lo
    ensures hi < x ==> r == hi
  {
    if x < lo then lo else if x > hi then hi else x
  }

  /** The C# `%` operator on doubles (IEEE remainder with the sign of the dividend). */
  function FMod(x: real, y: real): (r: real)
    requires y > 0.0
    ensures 0.0 <= x ==> 0.0 <= r < y
    ensures x < 0.0 ==> -y < r <= 0.0
  {
    var q := x / y;
    QuotientTimesDivisor(x, y);
    RemainderBounds(x, y, q, Trunc(q));
    x - y * Trunc(q) as real
  }

  lemma QuotientTimesDivisor(x: real, y: real)
    requires y > 0.0
    ensures x == y * (x / y)
    ensures 0.0 <= x <==> 0.0 <= x / y
  {
  }

  /** With `x == y * q`, taking `y` times the truncated quotient away from `x`
      leaves `y` times the fractional part of `q`. */
  lemma RemainderBounds(x: real, y: real, q: real, t: int)
    requires y > 0.0 && x == y * q && t == Trunc(q)
    requires 0.0 <= x <==> 0.0 <= q
    ensures 0.0 <= x ==> 0.0 <= x - y * t as real < y
    ensures x < 0.0 ==> -y < x - y * t as real <= 0.0
  {
    var s := t as real;
    Distribute(y, q, s);
    if x < 0.0 {
      NegativeFraction(y, q - s, x - y * s);
    } else {
      PositiveFraction(y, q - s, x - y * s);
    }
  }

  lemma Distribute(y: real, q: real, s: real)
    ensures y * q - y * s == y * (q - s)
  {
  }

  /** `r`, a fraction in [0,1) scaled by a positive factor, stays in [0,y). */
  lemma PositiveFraction(y: real, d: real, r: real)
    requires y > 0.0 && 0.0 <= d < 1.0 && r == y * d
    ensures 0.0 <= r < y
  {
    assert y - r == y * (1.0 - d);
  }

  /** `r`, a fraction in (-1,0] scaled by a positive factor, stays in (-y,0]. */
  lemma NegativeFraction(y: real, d: real, r: real)
    requires y > 0.0 && -1.0 < d <= 0.0 && r == y * d
    ensures -y < r <= 0.0
  {
    assert y + r == y * (1.0 + d);
  }
}
