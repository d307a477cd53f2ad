/** Palette: a number of colours and an ordered map from colour index to
    anchor, edited in place; colours between anchors are blended. */
module Palettes {
  import opened Common
  import opened ColorPoints
  import opened PaletteMaps
  import opened PaletteLaws

  class Palette {
    var numberOfColors: int
    var points: PointMap
    var name: string

    /** Every anchor sits at the index its position maps to. */
    ghost predicate Valid()
      reads this
    {
      Anchored(points, numberOfColors)
    }

    /** An empty palette named "Default"; the count is not checked. */
    constructor (n: int)
      ensures numberOfColors == n && points == map[] && name == "Default"
      ensures Valid()
    {
      numberOfColors := n;
      points := map[];
      name := "Default";
    }

    /** A palette over a given anchor list, taken as it is. */
    constructor WithPoints(n: int, m: PointMap, paletteName: string)
      ensures numberOfColors == n && points == m && name == paletteName
    {
      numberOfColors := n;
      points := m;
      name := paletteName;
    }

    method SetName(paletteName: string)
      modifies this
      ensures name == paletteName
      ensures numberOfColors == old(numberOfColors) && points == old(points)
    {
      name := paletteName;
    }

    /** The NumberOfColors setter: stores the new count, then rebuilds the
        map by re-inserting every anchor, in key order, at the index its
        position maps to. If that throws, the count stays changed and the
        anchors stay as they were. */
    method SetNumberOfColors(n: int) returns (o: Outcome)
      modifies this
      ensures numberOfColors == n && name == old(name)
      ensures Redistribute(old(points), n).Success? ==> o == Pass && points == Redistribute(old(points), n).value
      ensures Redistribute(old(points), n).Failure? ==>
        o == Fail(Redistribute(old(points), n).error) && points == old(points)
      ensures 2 <= n && (forall k :: k in old(points) ==> 0.0 <= old(points)[k].position <= 1.0) ==>
        o == Pass && Valid()
    {
      numberOfColors := n;
      var ps := InOrder(points);
      var acc: PointMap := map[];
      var i := 0;
      while i < |ps|
        invariant 0 <= i <= |ps|
        invariant numberOfColors == n && name == old(name) && points == old(points)
        invariant AddAll(map[], n, ps[..i]) == Success(acc)
      {
        var p := ps[i];
        AddAllSnoc(map[], n, ps, i + 1, acc);
        var index := ColorIndex(p.position, n);
        if index.Failure? {
          AddAllFailureSticks(map[], n, ps, i + 1);
          return Fail(index.error);
        }
        var r := TryToAdd(acc, n, index.value, p);
        if r.Failure? {
          AddAllFailureSticks(map[], n, ps, i + 1);
          return Fail(r.error);
        }
        acc := r.value;
        i := i + 1;
      }
      assert ps[..i] == ps;
      points := acc;
      if 2 <= n && forall k :: k in old(points) ==> 0.0 <= old(points)[k].position <= 1.0 {
        RedistributeAnchored(old(points), n);
      }
      return Pass;
    }

    /** Adds a copy of the point at the index its position maps to, under the
        collision policy: existing anchors are never replaced. */
    method AddColorPoint(colorPoint: ColorPoint) returns (o: Outcome)
      modifies this
      ensures numberOfColors == old(numberOfColors) && name == old(name)
      ensures AddPoint(old(points), numberOfColors, colorPoint.Value()).Success? ==>
        o == Pass && points == AddPoint(old(points), numberOfColors, colorPoint.Value()).value
      ensures AddPoint(old(points), numberOfColors, colorPoint.Value()).Failure? ==>
        o == Fail(AddPoint(old(points), numberOfColors, colorPoint.Value()).error) && points == old(points)
      ensures old(Valid()) && 2 <= numberOfColors && 0.0 <= colorPoint.position <= 1.0 ==> o == Pass && Valid()
    {
      var copied := colorPoint.Clone();
      var index := copied.GetColorIndex(numberOfColors);
      if index.Failure? {
        return Fail(index.error);
      }
      var r := TryToAdd(points, numberOfColors, index.value, copied.Value());
      if r.Failure? {
        return Fail(r.error);
      }
      if Valid() && 2 <= numberOfColors && 0.0 <= colorPoint.position <= 1.0 {
        AddPointAnchored(points, numberOfColors, colorPoint.Value());
      }
      points := r.value;
      return Pass;
    }

    /** Deletes the anchor at `index`; there must be one. */
    method RemoveColorPoint(index: int) returns (o: Outcome)
      modifies this
      ensures numberOfColors == old(numberOfColors) && name == old(name)
      ensures index in old(points) ==> o == Pass && points == old(points) - {index}
      ensures index !in old(points) ==> o == Fail(PointNotFound) && points == old(points)
      ensures old(Valid()) ==> Valid()
    {
      if index !in points {
        return Fail(PointNotFound);
      }
      if Valid() {
        RemoveAnchored(points, numberOfColors, index);
      }
      points := points - {index};
      return Pass;
    }

    method IsPointAtIndex(index: int) returns (b: bool)
      ensures b <==> index in points
    {
      b := index in points;
    }

    method GetNumberOfColorPoints() returns (count: int)
      ensures count == |points|
    {
      count := |points|;
    }

    /** The anchor at exactly `index`, or null. */
    method GetColorPoint(index: int) returns (cp: ColorPoint?)
      ensures cp == null <==> index !in points
      ensures cp != null ==> fresh(cp) && cp.Value() == points[index]
    {
      if index !in points {
        return null;
      }
      cp := new ColorPoint(points[index].color, points[index].position);
    }

    /** Moves the anchor at `oldIndex` to the free `newIndex`, placing it
        exactly on its new index; the checks run in the order of Move. */
    method MoveColorPoint(oldIndex: int, newIndex: int) returns (o: Outcome)
      modifies this
      ensures numberOfColors == old(numberOfColors) && name == old(name)
      ensures Move(old(points), numberOfColors, oldIndex, newIndex).Success? ==>
        o == Pass && points == Move(old(points), numberOfColors, oldIndex, newIndex).value
      ensures Move(old(points), numberOfColors, oldIndex, newIndex).Failure? ==>
        o == Fail(Move(old(points), numberOfColors, oldIndex, newIndex).error) && points == old(points)
      ensures old(Valid()) ==> Valid()
    {
      if oldIndex < 0 || oldIndex >= numberOfColors {
        return Fail(OldIndexOutOfRange);
      }
      if newIndex < 0 || newIndex >= numberOfColors {
        return Fail(NewIndexOutOfRange);
      }
      if newIndex in points {
        return Fail(IndexOccupied);
      }
      if oldIndex !in points {
        return Fail(PointNotFound);
      }
      var original := points[oldIndex];
      var rest := points - {oldIndex};
      var copied := new ColorPoint(original.color, original.position);
      var placed := copied.SetPositionByIndex(newIndex, numberOfColors);
      if placed.Fail? {
        assert false;
      }
      var r := TryToAdd(rest, numberOfColors, newIndex, copied.Value());
      if Valid() {
        MoveAnchored(points, numberOfColors, oldIndex, newIndex);
      }
      points := r.value;
      return Pass;
    }

    /** The neighbours of `index`, found by scanning the anchors in key
        order: the last key below it and the first key at or above it. */
    method GetSurroundingColorPoints(index: int) returns (pair: PointPair)
      ensures pair == Surrounding(points, index)
    {
      var ks := SortedKeys(points.Keys);
      pair := PointPair(0, None, 0, None);
      var i := 0;
      while i < |ks|
        invariant 0 <= i <= |ks|
        invariant forall j :: 0 <= j < i ==> ks[j] < index
        invariant i == 0 ==> pair == PointPair(0, None, 0, None)
        invariant 0 < i ==> pair == PointPair(ks[i - 1], Some(points[ks[i - 1]]), 0, None)
      {
        var key := ks[i];
        if key < index {
          pair := pair.(lowIndex := key, lower := Some(points[key]));
        } else {
          pair := pair.(highIndex := key, higher := Some(points[key]));
          NeighboursAt(points, ks, i, index);
          return;
        }
        i := i + 1;
      }
      NeighboursAtEnd(points, ks, index);
    }

    /** GetColor: the exact anchor's colour, or what the neighbours give. */
    method GetColor(index: int) returns (c: Color)
      ensures c == ColorAt(points, index)
    {
      if index in points {
        return points[index].color;
      }
      var pair := GetSurroundingColorPoints(index);
      if pair.lower.None? && pair.higher.None? {
        c := White;
      } else if pair.lower.None? {
        c := pair.higher.value.color;
      } else if pair.higher.None? {
        c := pair.lower.value.color;
      } else {
        c := Blend(index, pair.lowIndex, pair.lower.value.color, pair.highIndex, pair.higher.value.color);
      }
    }

    /** A snapshot of the anchors: each re-inserted at its own key. */
    method GetCopyOfColorPointList() returns (copy: PointMap)
      ensures copy == points
    {
      var ks := SortedKeys(points.Keys);
      copy := map[];
      var i := 0;
      while i < |ks|
        invariant 0 <= i <= |ks|
        invariant copy == Restrict(points, ks[..i])
      {
        var key := ks[i];
        LastKeyIsNew(points, ks, i + 1);
        var r := TryToAdd(copy, numberOfColors, key, points[key]);
        RestrictStep(points, ks, i + 1);
        copy := r.value;
        i := i + 1;
      }
      assert ks[..i] == ks;
      RestrictToAllKeys(points);
    }

    /** SpreadPinsEvenly: the anchors, in key order, moved to the first
        index, evenly spaced indices, and the last index. If placing one
        throws, the anchors stay as they were. */
    method SpreadPinsEvenly() returns (o: Outcome)
      modifies this
      ensures numberOfColors == old(numberOfColors) && name == old(name)
      ensures Spread(old(points), numberOfColors).Success? ==>
        o == Pass && points == Spread(old(points), numberOfColors).value
      ensures Spread(old(points), numberOfColors).Failure? ==>
        o == Fail(Spread(old(points), numberOfColors).error) && points == old(points)
      ensures old(Valid()) ==> o == Pass && Valid()
    {
      var k := |points|;
      if k == 0 {
        return Pass;
      }
      var n := numberOfColors;
      var ps := InOrder(points);
      if Valid() {
        SpreadAnchored(points, n);
      }
      var r := SpreadInOrder(ps, n);
      if r.Failure? {
        return Fail(r.error);
      }
      points := r.value;
      return Pass;
    }

    /** A distinct palette with the same count, name and anchors. */
    method Clone() returns (copy: Palette)
      ensures fresh(copy)
      ensures copy.numberOfColors == numberOfColors && copy.points == points && copy.name == name
    {
      copy := new Palette(numberOfColors);
      copy.SetName(name);
      var entries := CopyEntries(points);
      copy.points := entries;
    }
  }

  /** Clone's loop: every entry of `m`, in key order, added to a new map. */
  method CopyEntries(m: PointMap) returns (entries: PointMap)
    ensures entries == m
  {
    var ks := SortedKeys(m.Keys);
    entries := map[];
    var i := 0;
    while i < |ks|
      invariant 0 <= i <= |ks|
      invariant entries == Restrict(m, ks[..i])
    {
      var key := ks[i];
      RestrictStep(m, ks, i + 1);
      entries := entries[key := m[key]];
      i := i + 1;
    }
    assert ks[..i] == ks;
    RestrictToAllKeys(m);
  }

  /** SpreadPinsEvenly's loop: the anchors `ps`, in key order, each
      re-inserted into a new map at its spread index, stopping at the first
      index that cannot be placed. */
  method SpreadInOrder(ps: seq<Point>, n: int) returns (r: Result<PointMap>)
    ensures r == SpreadFrom(ps, |ps|, n)
  {
    var k := |ps|;
    var acc: PointMap := map[];
    var i := 0;
    while i < k
      invariant 0 <= i <= k
      invariant SpreadFrom(ps[..i], k, n) == Success(acc)
    {
      SpreadFromSnoc(ps, k, n, i + 1, acc);
      var index := SpreadIndex(i, k, n);
      var position := PositionForIndex(index, n);
      if position.Failure? {
        SpreadFromFailureSticks(ps, k, n, i + 1);
        return Failure(position.error);
      }
      // `index` is a valid index here, so adding at it cannot throw
      var added := TryToAdd(acc, n, index, Point(ps[i].color, position.value));
      acc := added.value;
      i := i + 1;
    }
    assert ps[..i] == ps;
    return Success(acc);
  }

  /** When the scan stops at the i-th key, the pair it holds is the pair of
      neighbours. */
  lemma NeighboursAt(m: PointMap, ks: seq<int>, i: nat, index: int)
    requires ks == SortedKeys(m.Keys) && i < |ks| && index <= ks[i]
    requires forall j :: 0 <= j < i ==> ks[j] < index
    ensures Surrounding(m, index) ==
      if i == 0 then PointPair(0, None, ks[i], Some(m[ks[i]]))
      else PointPair(ks[i - 1], Some(m[ks[i - 1]]), ks[i], Some(m[ks[i]]))
  {
    LowerAt(m, ks, i, index);
    HigherAt(m, ks, i, index);
  }

  lemma LowerAt(m: PointMap, ks: seq<int>, i: nat, index: int)
    requires ks == SortedKeys(m.Keys) && i < |ks| && index <= ks[i]
    requires forall j :: 0 <= j < i ==> ks[j] < index
    ensures Lower(m, index) == if i == 0 then None else Some(ks[i - 1])
  {
    if i == 0 {
      forall k | k in m
        ensures index <= k
      {
        var j := KeyPosition(m, k);
        assert 0 < j ==> ks[0] < ks[j];
      }
    } else {
      var top := ks[i - 1];
      forall k | k in m && k < index
        ensures k <= top
      {
        var j := KeyPosition(m, k);
        assert ks[j] < ks[i];
        assert j < i - 1 ==> ks[j] < top;
      }
      LowerIs(m, index, top);
    }
  }

  /** A key below `index` that bounds every key below `index` is `Lower`. */
  lemma LowerIs(m: PointMap, index: int, top: int)
    requires top in m && top < index
    requires forall k :: k in m && k < index ==> k <= top
    ensures Lower(m, index) == Some(top)
  {
    var r := Lower(m, index);
    assert r.Some?;
  }

  lemma HigherAt(m: PointMap, ks: seq<int>, i: nat, index: int)
    requires ks == SortedKeys(m.Keys) && i < |ks| && index <= ks[i]
    requires forall j :: 0 <= j < i ==> ks[j] < index
    ensures Higher(m, index) == Some(ks[i])
  {
    forall k | k in m && index <= k
      ensures ks[i] <= k
    {
      var j := KeyPosition(m, k);
      assert i <= j;
    }
    HigherIs(m, index, ks[i]);
  }

  /** A key at or above `index` below every key at or above `index` is `Higher`. */
  lemma HigherIs(m: PointMap, index: int, bottom: int)
    requires bottom in m && index <= bottom
    requires forall k :: k in m && index <= k ==> bottom <= k
    ensures Higher(m, index) == Some(bottom)
  {
    var r := Higher(m, index);
    assert r.Some?;
  }

  /** When the scan runs off the end, every key is below `index`. */
  lemma NeighboursAtEnd(m: PointMap, ks: seq<int>, index: int)
    requires ks == SortedKeys(m.Keys)
    requires forall j :: 0 <= j < |ks| ==> ks[j] < index
    ensures Surrounding(m, index) ==
      if |ks| == 0 then PointPair(0, None, 0, None)
      else PointPair(ks[|ks| - 1], Some(m[ks[|ks| - 1]]), 0, None)
  {
    LowerAtEnd(m, ks, index);
    HigherAtEnd(m, ks, index);
  }

  lemma LowerAtEnd(m: PointMap, ks: seq<int>, index: int)
    requires ks == SortedKeys(m.Keys)
    requires forall j :: 0 <= j < |ks| ==> ks[j] < index
    ensures Lower(m, index) == if |ks| == 0 then None else Some(ks[|ks| - 1])
  {
    if |ks| > 0 {
      var top := ks[|ks| - 1];
      forall k | k in m && k < index
        ensures k <= top
      {
        var j := KeyPosition(m, k);
        assert j < |ks| - 1 ==> ks[j] < top;
      }
      LowerIs(m, index, top);
    }
  }

  lemma HigherAtEnd(m: PointMap, ks: seq<int>, index: int)
    requires ks == SortedKeys(m.Keys)
    requires forall j :: 0 <= j < |ks| ==> ks[j] < index
    ensures Higher(m, index) == None
  {
    forall k | k in m
      ensures k < index
    {
      var j := KeyPosition(m, k);
    }
  }
}
