/** A palette anchor: a colour pinned at a relative position in [0,1] that
    maps onto an integer colour index of a palette with a given size. */
module ColorPoints {
  import opened Common

  /** The state of a ColorPoint as a value: its colour and its position. */
  datatype Point = Point(color: Color, position: real)

  /** GetColorIndex: the palette index a position maps to, truncating
      `position * (numberOfColors - 1)` toward zero (the floor for a position
      of 0 or more, the ceiling for a negative one, which the constructor
      lets through); palettes need at least two colours. */
  function ColorIndex(position: real, numberOfColors: int): (r: Result<int>)
    ensures r.Failure? <==> numberOfColors < 2
    ensures r.Failure? ==> r.error == TooFewColors
    ensures r.Success? && 0.0 <= position ==>
      0 <= r.value && r.value as real <= position * (numberOfColors - 1) as real < r.value as real + 1.0
    ensures r.Success? && position < 0.0 ==>
      r.value <= 0 && r.value as real - 1.0 < position * (numberOfColors - 1) as real <= r.value as real
  {
    if numberOfColors < 2 then Failure(TooFewColors)
    else Success(Trunc(position * (numberOfColors - 1) as real))
  }

  /** SetPositionByIndex: the position that maps exactly onto `index`; the
      three argument checks happen in this order. */
  function PositionForIndex(index: int, numberOfColors: int): (r: Result<real>)
    ensures index < 0 ==> r == Failure(NegativeIndex)
    ensures 0 <= index && numberOfColors < 2 ==> r == Failure(TooFewColors)
    ensures 0 <= index && 2 <= numberOfColors && numberOfColors <= index ==> r == Failure(IndexNotBelowCount)
    ensures r.Success? <==> 0 <= index < numberOfColors && 2 <= numberOfColors
    ensures r.Success? ==> 0.0 <= r.value <= 1.0
    ensures r.Success? ==> r.value * (numberOfColors - 1) as real == index as real
  {
    if index < 0 then Failure(NegativeIndex)
    else if numberOfColors < 2 then Failure(TooFewColors)
    else if numberOfColors <= index then Failure(IndexNotBelowCount)
    else
      var k := (numberOfColors - 1) as real;
      var p := index as real / k;
      assert p * k == index as real;
      assert p <= 1.0 by { assert index as real <= k; }
      Success(p)
  }

  /** A position in [0,1] lands on an index in [0, n-1], and on the last index
      exactly when it is 1. */
  lemma {:induction false} IndexInRange(position: real, numberOfColors: int)
    requires 0.0 <= position <= 1.0 && 2 <= numberOfColors
    ensures 0 <= ColorIndex(position, numberOfColors).value <= numberOfColors - 1
    ensures ColorIndex(position, numberOfColors).value == numberOfColors - 1 <==> position == 1.0
  {
    var k := (numberOfColors - 1) as real;
    var i := ColorIndex(position, numberOfColors).value;
    assert k - position * k == (1.0 - position) * k;
    assert position * k <= k;
    if position < 1.0 {
      assert k - position * k > 0.0;
      assert i as real < k;
    }
  }

  /** Mapping positions to indices preserves their order. */
  lemma {:induction false} IndexMonotone(p1: real, p2: real, numberOfColors: int)
    requires 0.0 <= p1 <= p2 && 2 <= numberOfColors
    ensures ColorIndex(p1, numberOfColors).value <= ColorIndex(p2, numberOfColors).value
  {
    var k := (numberOfColors - 1) as real;
    assert p2 * k - p1 * k == (p2 - p1) * k;
    SignOfProduct(p2 - p1, k);
    TruncMonotone(p1 * k, p2 * k);
  }

  /** Setting a point's position from an index and reading its index back
      gives the same index (over exact arithmetic). */
  lemma {:induction false} IndexPositionRoundTrip(index: int, numberOfColors: int)
    requires 0 <= index < numberOfColors && 2 <= numberOfColors
    ensures ColorIndex(PositionForIndex(index, numberOfColors).value, numberOfColors) == Success(index)
  {
    var p := PositionForIndex(index, numberOfColors).value;
    assert p * (numberOfColors - 1) as real == index as real;
    assert Trunc(index as real) == index;
  }

  /** Positions for increasing indices increase. */
  lemma {:induction false} PositionMonotone(i: int, j: int, numberOfColors: int)
    requires 0 <= i < j < numberOfColors && 2 <= numberOfColors
    ensures PositionForIndex(i, numberOfColors).value < PositionForIndex(j, numberOfColors).value
  {
    var k := (numberOfColors - 1) as real;
    var pi := PositionForIndex(i, numberOfColors).value;
    var pj := PositionForIndex(j, numberOfColors).value;
    assert pi * k == i as real && pj * k == j as real;
    assert (pj - pi) * k == pj * k - pi * k;
    SignOfProduct(pj - pi, k);
  }

  /** ColorPoint: a mutable anchor whose position setter validates its input. */
  class ColorPoint {
    var pointColor: Color
    var position: real

    /** The point's state as a value. */
    function Value(): (p: Point)
      reads this
      ensures p.color == pointColor && p.position == position
    {
      Point(pointColor, position)
    }

    /** The parameterless constructor: White at position 0. */
    constructor Default()
      ensures Value() == Point(White, 0.0)
    {
      pointColor := White;
      position := 0.0;
    }

    /** Stores colour and position as given, without a range check. */
    constructor (c: Color, pos: real)
      ensures Value() == Point(c, pos)
    {
      pointColor := c;
      position := pos;
    }

    /** The PointColor setter. */
    method SetPointColor(c: Color)
      modifies this
      ensures Value() == Point(c, old(position))
    {
      pointColor := c;
    }

    /** The Position setter: rejects values outside [0,1] and keeps the old one. */
    method SetPosition(v: real) returns (o: Outcome)
      modifies this
      ensures o.Fail? <==> v < 0.0 || 1.0 < v
      ensures o.Fail? ==> o.error == PositionOutOfRange && position == old(position)
      ensures o.Pass? ==> position == v
      ensures pointColor == old(pointColor)
    {
      if v < 0.0 || v > 1.0 {
        return Fail(PositionOutOfRange);
      }
      position := v;
      return Pass;
    }

    method GetColorIndex(numberOfColors: int) returns (r: Result<int>)
      ensures r == ColorIndex(position, numberOfColors)
    {
      if numberOfColors < 2 {
        return Failure(TooFewColors);
      }
      r := Success(Trunc(position * (numberOfColors - 1) as real));
    }

    /** Places the point exactly on `index`; on failure the point is unchanged. */
    method SetPositionByIndex(index: int, numberOfColors: int) returns (o: Outcome)
      modifies this
      ensures PositionForIndex(index, numberOfColors).Failure? ==>
        o == Fail(PositionForIndex(index, numberOfColors).error) && position == old(position)
      ensures PositionForIndex(index, numberOfColors).Success? ==>
        o == Pass && position == PositionForIndex(index, numberOfColors).value
      ensures pointColor == old(pointColor)
    {
      if index < 0 {
        return Fail(NegativeIndex);
      }
      if numberOfColors < 2 {
        return Fail(TooFewColors);
      }
      if numberOfColors <= index {
        return Fail(IndexNotBelowCount);
      }
      position := index as real / (numberOfColors - 1) as real;
      return Pass;
    }

    /** A distinct point with the same colour and position. */
    method Clone() returns (c: ColorPoint)
      ensures fresh(c) && c.Value() == Value()
    {
      c := new ColorPoint(pointColor, position);
    }
  }
}
