/** The ordered index-to-anchor map behind a palette (a SortedList keyed by
    colour index) and the pure operations on it: iteration in key order, the
    collision policy used for every insertion, and the neighbour lookup. */
module PaletteMaps {
  import opened Common
  import opened ColorPoints

  type PointMap = map<int, Point>

  /** Every anchor sits at the index its position maps to, with its position
      in [0,1]: the state every palette operation keeps. */
  ghost predicate Anchored(m: PointMap, n: int)
  {
    forall k :: k in m ==> 0.0 <= m[k].position <= 1.0 && ColorIndex(m[k].position, n) == Success(k)
  }

  predicate Increasing(ks: seq<int>)
  {
    forall i, j :: 0 <= i < j < |ks| ==> ks[i] < ks[j]
  }

  /** A set other than the empty set has a member. */
  lemma HasMember(s: set<int>)
    requires s != {}
    ensures exists x :: x in s
  {
    if forall x :: x !in s {
      assert false;
    }
  }

  /** A finite non-empty set of indices has a least element. */
  lemma {:induction false} HasLeast(s: set<int>)
    requires s != {}
    ensures exists k :: k in s && forall j :: j in s ==> k <= j
    decreases |s|
  {
    HasMember(s);
    var x :| x in s;
    if s == {x} {
      assert forall j :: j in s ==> x <= j;
    } else {
      var rest := s - {x};
      HasLeast(rest);
      var y :| y in rest && forall j :: j in rest ==> y <= j;
      var k := if x < y then x else y;
      forall j | j in s
        ensures k <= j
      {
        if j != x {
          assert j in rest;
        }
      }
      assert k in s;
    }
  }

  /** A finite non-empty set of indices has a greatest element. */
  lemma {:induction false} HasGreatest(s: set<int>)
    requires s != {}
    ensures exists k :: k in s && forall j :: j in s ==> j <= k
    decreases |s|
  {
    HasMember(s);
    var x :| x in s;
    if s == {x} {
      assert forall j :: j in s ==> j <= x;
    } else {
      var rest := s - {x};
      HasGreatest(rest);
      var y :| y in rest && forall j :: j in rest ==> j <= y;
      var k := if x < y then y else x;
      forall j | j in s
        ensures j <= k
      {
        if j != x {
          assert j in rest;
        }
      }
      assert k in s;
    }
  }

  function Least(s: set<int>): (k: int)
    requires s != {}
    ensures k in s && forall j :: j in s ==> k <= j
  {
    HasLeast(s);
    var k :| k in s && forall j :: j in s ==> k <= j; k
  }

  function Greatest(s: set<int>): (k: int)
    requires s != {}
    ensures k in s && forall j :: j in s ==> j <= k
  {
    HasGreatest(s);
    var k :| k in s && forall j :: j in s ==> j <= k; k
  }

  /** The order in which a SortedList enumerates its keys. */
  function SortedKeys(s: set<int>): (ks: seq<int>)
    ensures |ks| == |s|
    ensures forall i :: 0 <= i < |ks| ==> ks[i] in s
    ensures Increasing(ks)
    decreases |s|
  {
    if s == {} then []
    else
      var k := Least(s);
      [k] + SortedKeys(s - {k})
  }

  /** Every key is enumerated. */
  lemma {:induction false} SortedKeysCover(s: set<int>)
    ensures forall k :: k in s ==> k in SortedKeys(s)
    decreases |s|
  {
    if s != {} {
      var k := Least(s);
      SortedKeysCover(s - {k});
      assert SortedKeys(s) == [k] + SortedKeys(s - {k});
    }
  }

  /** Where a key of `m` sits in the key order. */
  lemma KeyPosition(m: PointMap, k: int) returns (j: int)
    requires k in m
    ensures 0 <= j < |SortedKeys(m.Keys)| && SortedKeys(m.Keys)[j] == k
  {
    SortedKeysCover(m.Keys);
    var ks := SortedKeys(m.Keys);
    j :| 0 <= j < |ks| && ks[j] == k;
  }

  /** The anchors of `m` in key order. */
  function InOrder(m: PointMap): (ps: seq<Point>)
    ensures |ps| == |m.Keys|
    ensures forall i :: 0 <= i < |ps| ==> ps[i] == m[SortedKeys(m.Keys)[i]]
  {
    var ks := SortedKeys(m.Keys);
    seq(|ks|, i requires 0 <= i < |ks| => m[ks[i]])
  }

  /** The slot an insertion retries when its index is taken: one down, or
      one up from 0 or below. */
  function Retry(index: int): (r: int)
    ensures r == index - 1 || r == index + 1
    ensures 0 < index ==> r < index
    ensures 0 <= index ==> 0 <= r
    ensures r < 0 <==> index < -1
  {
    if index > 0 then index - 1 else index + 1
  }

  /** TryToAddNewPoint: a free index takes the point; an occupied index below
      n-1 retries once at Retry(index), placing the point exactly on that slot
      if it is free; anything else leaves the map as it is. Existing anchors
      are never replaced or altered. */
  function TryToAdd(m: PointMap, n: int, index: int, p: Point): (r: Result<PointMap>)
    ensures index !in m ==> r == Success(m[index := p])
    ensures r.Success? ==> forall k :: k in m ==> k in r.value && r.value[k] == m[k]
    ensures r.Success? ==> r.value.Keys <= m.Keys + {index, Retry(index)}
    ensures r.Success? ==> |r.value| <= |m| + 1
    ensures r.Failure? ==> index in m && index < 0
  {
    if index !in m then Success(m[index := p])
    else if index < n - 1 then
      var retry := Retry(index);
      if retry !in m then
        match PositionForIndex(retry, n)
        case Success(pos) => Success(m[retry := Point(p.color, pos)])
        case Failure(e) => Failure(e)
      else Success(m)
    else Success(m)
  }

  /** The collision policy of TryToAddNewPoint: an occupied index at n-1 or
      above, or an occupied retry slot, leaves the map as it is; otherwise the
      point's colour goes to the retry slot at the position that maps exactly
      onto it, and the insertion fails only when that slot is negative or the
      palette has fewer than two colours. */
  lemma TryToAddCollision(m: PointMap, n: int, index: int, p: Point)
    requires index in m
    ensures n - 1 <= index ==> TryToAdd(m, n, index, p) == Success(m)
    ensures index < n - 1 && Retry(index) in m ==> TryToAdd(m, n, index, p) == Success(m)
    ensures index < n - 1 && Retry(index) !in m && 0 <= Retry(index) && 2 <= n ==>
      var r := TryToAdd(m, n, index, p);
      r.Success? && r.value.Keys == m.Keys + {Retry(index)}
      && r.value[Retry(index)].color == p.color
      && r.value[Retry(index)].position * (n - 1) as real == Retry(index) as real
    ensures index < n - 1 && Retry(index) !in m && Retry(index) < 0 ==>
      TryToAdd(m, n, index, p) == Failure(NegativeIndex)
    ensures index < n - 1 && Retry(index) !in m && 0 <= Retry(index) && n < 2 ==>
      TryToAdd(m, n, index, p) == Failure(TooFewColors)
  {
  }

  /** AddColorPoint on the map: the point's own index, then the collision policy. */
  function AddPoint(m: PointMap, n: int, p: Point): (r: Result<PointMap>)
    ensures n < 2 ==> r == Failure(TooFewColors)
    ensures r.Success? ==> forall k :: k in m ==> k in r.value && r.value[k] == m[k]
    ensures r.Success? ==> |r.value| <= |m| + 1
  {
    match ColorIndex(p.position, n)
    case Failure(e) => Failure(e)
    case Success(i) => TryToAdd(m, n, i, p)
  }

  /** Adding the points one after another, stopping at the first failure. */
  function AddAll(m: PointMap, n: int, ps: seq<Point>): (r: Result<PointMap>)
    ensures r.Success? ==> forall k :: k in m ==> k in r.value && r.value[k] == m[k]
    ensures r.Success? ==> |r.value| <= |m| + |ps|
    decreases |ps|
  {
    if |ps| == 0 then Success(m)
    else
      match AddAll(m, n, ps[..|ps| - 1])
      case Failure(e) => Failure(e)
      case Success(acc) => AddPoint(acc, n, ps[|ps| - 1])
  }

  /** NumberOfColorsChangedRedistributePoints: every anchor, in key order,
      re-inserted at the index its position maps to under the new count. */
  function Redistribute(m: PointMap, n: int): (r: Result<PointMap>)
    ensures r.Success? ==> |r.value| <= |m|
  {
    AddAll(map[], n, InOrder(m))
  }

  /** The index SpreadPinsEvenly gives the i-th of k anchors in a palette of n
      colours: the ends are pinned, the others at trunc(i*n/(k-1) + 0.5) - 1. */
  function SpreadIndex(i: int, k: int, n: int): (idx: int)
    requires 0 <= i < k
    ensures i == 0 ==> idx == 0
    ensures 0 < i == k - 1 ==> idx == n - 1
  {
    if i == 0 then 0
    else if i == k - 1 then n - 1
    else Trunc(i as real * (n as real / (k - 1) as real) + 0.5) - 1
  }

  /** Placing the first |ps| of k anchors as SpreadPinsEvenly does. */
  function SpreadFrom(ps: seq<Point>, k: int, n: int): (r: Result<PointMap>)
    requires |ps| <= k
    ensures r.Success? ==> |r.value| <= |ps|
    decreases |ps|
  {
    if |ps| == 0 then Success(map[])
    else
      match SpreadFrom(ps[..|ps| - 1], k, n)
      case Failure(e) => Failure(e)
      case Success(acc) =>
        var i := |ps| - 1;
        var idx := SpreadIndex(i, k, n);
        match PositionForIndex(idx, n)
        case Failure(e) => Failure(e)
        case Success(pos) => TryToAdd(acc, n, idx, Point(ps[i].color, pos))
  }

  /** SpreadPinsEvenly on the map; an empty palette is left as it is. */
  function Spread(m: PointMap, n: int): (r: Result<PointMap>)
    ensures |m| == 0 ==> r == Success(m)
    ensures r.Success? ==> |r.value| <= |m|
  {
    if |m| == 0 then Success(m) else SpreadFrom(InOrder(m), |m|, n)
  }

  /** MoveColorPoint on the map, with its four checks in source order. */
  function Move(m: PointMap, n: int, oldIndex: int, newIndex: int): (r: Result<PointMap>)
    ensures (oldIndex < 0 || n <= oldIndex) ==> r == Failure(OldIndexOutOfRange)
    ensures 0 <= oldIndex < n && (newIndex < 0 || n <= newIndex) ==> r == Failure(NewIndexOutOfRange)
    ensures 0 <= oldIndex < n && 0 <= newIndex < n && newIndex in m ==> r == Failure(IndexOccupied)
    ensures 0 <= oldIndex < n && 0 <= newIndex < n && newIndex !in m && oldIndex !in m ==> r == Failure(PointNotFound)
    ensures r.Success? <==> 0 <= oldIndex < n && 0 <= newIndex < n && newIndex !in m && oldIndex in m
    ensures r.Success? ==>
      r.value.Keys == m.Keys - {oldIndex} + {newIndex} && |r.value| == |m|
      && r.value[newIndex].color == m[oldIndex].color
      && r.value[newIndex].position * (n - 1) as real == newIndex as real
      && forall k :: k in m && k != oldIndex ==> r.value[k] == m[k]
  {
    if oldIndex < 0 || oldIndex >= n then Failure(OldIndexOutOfRange)
    else if newIndex < 0 || newIndex >= n then Failure(NewIndexOutOfRange)
    else if newIndex in m then Failure(IndexOccupied)
    else if oldIndex !in m then Failure(PointNotFound)
    else
      match PositionForIndex(newIndex, n)
      case Failure(e) => assert false; Failure(e)
      case Success(pos) =>
        var rest := m - {oldIndex};
        assert |rest| == |m| - 1;
        TryToAdd(rest, n, newIndex, Point(m[oldIndex].color, pos))
  }

  /** RemoveColorPoint on the map. */
  function Remove(m: PointMap, index: int): (r: Result<PointMap>)
    ensures r.Failure? <==> index !in m
    ensures r.Failure? ==> r.error == PointNotFound
    ensures r.Success? ==> r.value.Keys == m.Keys - {index} && |r.value| == |m| - 1
    ensures r.Success? ==> forall k :: k in r.value ==> r.value[k] == m[k]
  {
    if index in m then Success(m - {index}) else Failure(PointNotFound)
  }

  /** ColorPointPair: the neighbours of an index, as GetSurroundingColorPoints
      leaves them; an index stays 0 when its point is absent. */
  datatype PointPair = PointPair(lowIndex: int, lower: Option<Point>, highIndex: int, higher: Option<Point>)

  /** The greatest key below `index`, if there is one. */
  function Lower(m: PointMap, index: int): (r: Option<int>)
    ensures r.None? <==> forall k :: k in m ==> index <= k
    ensures r.Some? ==> r.value in m && r.value < index && forall k :: k in m && k < index ==> k <= r.value
  {
    var below := set k | k in m && k < index;
    assert forall k :: k in m && k < index ==> k in below;
    if below == {} then None else Some(Greatest(below))
  }

  /** The least key at or above `index`, if there is one. */
  function Higher(m: PointMap, index: int): (r: Option<int>)
    ensures r.None? <==> forall k :: k in m ==> k < index
    ensures r.Some? ==> r.value in m && index <= r.value && forall k :: k in m && index <= k ==> r.value <= k
  {
    var above := set k | k in m && index <= k;
    assert forall k :: k in m && index <= k ==> k in above;
    if above == {} then None else Some(Least(above))
  }

  /** The neighbours of `index`: the greatest key below it and the least key
      at or above it, each with its anchor. */
  function Surrounding(m: PointMap, index: int): (pair: PointPair)
    ensures pair.lower.Some? <==> Lower(m, index).Some?
    ensures pair.higher.Some? <==> Higher(m, index).Some?
    ensures pair.lower.Some? ==> pair.lowIndex == Lower(m, index).value && pair.lower.value == m[pair.lowIndex]
    ensures pair.higher.Some? ==> pair.highIndex == Higher(m, index).value && pair.higher.value == m[pair.highIndex]
  {
    var lo := Lower(m, index);
    var hi := Higher(m, index);
    PointPair(
      if lo.Some? then lo.value else 0, if lo.Some? then Some(m[lo.value]) else None,
      if hi.Some? then hi.value else 0, if hi.Some? then Some(m[hi.value]) else None)
  }

  /** `v` is the byte cast of the weighted sum `(1-t)*c1 + t*c2`: that sum is
      never negative, so the cast keeps its integer part. */
  predicate TruncatedBlend(v: int, c1: int, c2: int, t: real)
  {
    v as real <= (1.0 - t) * c1 as real + t * c2 as real < v as real + 1.0
  }

  /** One channel of GetColorWeightedBetweenPoint: the byte cast of the
      weighted sum (1-t)*c1 + t*c2, which stays between the two channels. */
  function BlendChannel(c1: byte, c2: byte, t: real): (v: byte)
    requires 0.0 <= t <= 1.0
    ensures TruncatedBlend(v, c1, c2, t)
    ensures c1 <= c2 ==> c1 <= v <= c2
    ensures c2 <= c1 ==> c2 <= v <= c1
    ensures t == 0.0 ==> v == c1
    ensures t == 1.0 ==> v == c2
  {
    var x := (1.0 - t) * c1 as real + t * c2 as real;
    BetweenEnds(c1 as real, c2 as real, t, x);
    if c1 <= c2 then TruncBetween(x, c1, c2); Trunc(x)
    else TruncBetween(x, c2, c1); Trunc(x)
  }

  /** Truncating a non-negative value between two integers stays between them. */
  lemma TruncBetween(x: real, lo: int, hi: int)
    requires 0 <= lo && lo as real <= x < (hi + 1) as real
    ensures lo <= Trunc(x) <= hi
  {
  }

  /** A point x on the segment between a and b lies between them. */
  lemma BetweenEnds(a: real, b: real, t: real, x: real)
    requires 0.0 <= t <= 1.0 && x == (1.0 - t) * a + t * b
    ensures a <= b ==> a <= x <= b
    ensures b <= a ==> b <= x <= a
    ensures t == 0.0 ==> x == a
    ensures t == 1.0 ==> x == b
  {
    if a <= b {
      Interpolate(a, b, t);
    } else {
      MulNonnegative(t, a - b);
      MulNonnegative(1.0 - t, a - b);
      assert x - b == (1.0 - t) * (a - b);
      assert a - x == t * (a - b);
    }
  }

  /** The point `(1-t)*lo + t*hi` of a segment lies on it. */
  lemma Interpolate(lo: real, hi: real, t: real)
    requires lo <= hi && 0.0 <= t <= 1.0
    ensures lo <= (1.0 - t) * lo + t * hi <= hi
  {
    MulNonnegative(t, hi - lo);
    MulNonnegative(1.0 - t, hi - lo);
    assert (1.0 - t) * lo + t * hi - lo == t * (hi - lo);
    assert hi - ((1.0 - t) * lo + t * hi) == (1.0 - t) * (hi - lo);
  }

  lemma MulNonnegative(p: real, q: real)
    requires 0.0 <= p && 0.0 <= q
    ensures 0.0 <= p * q
  {
  }

  /** The weight GetColorWeightedBetweenPoint gives the higher anchor: the
      distance from the lower anchor over the distance between the anchors. */
  function Weight(index: int, lowIndex: int, highIndex: int): (t: real)
    requires lowIndex < highIndex
    ensures t * (highIndex - lowIndex) as real == (index - lowIndex) as real
    ensures lowIndex <= index <= highIndex ==> 0.0 <= t <= 1.0
    ensures index == lowIndex ==> t == 0.0
    ensures index == highIndex ==> t == 1.0
  {
    (index - lowIndex) as real / (highIndex - lowIndex) as real
  }

  /** GetColorWeightedBetweenPoint for an index between two anchors: each
      channel is the byte cast of the two anchors' channels weighted by the
      distances to them, and so lies between them. */
  function Blend(index: int, lowIndex: int, low: Color, highIndex: int, high: Color): (c: Color)
    requires lowIndex <= index <= highIndex && lowIndex < highIndex
    ensures var t := Weight(index, lowIndex, highIndex);
      TruncatedBlend(c.a, low.a, high.a, t) && TruncatedBlend(c.r, low.r, high.r, t)
      && TruncatedBlend(c.g, low.g, high.g, t) && TruncatedBlend(c.b, low.b, high.b, t)
    ensures Between(c.a, low.a, high.a) && Between(c.r, low.r, high.r)
    ensures Between(c.g, low.g, high.g) && Between(c.b, low.b, high.b)
    ensures index == lowIndex ==> c == low
    ensures index == highIndex ==> c == high
  {
    var t := Weight(index, lowIndex, highIndex);
    assert 0.0 <= t <= 1.0;
    Color(BlendChannel(low.a, high.a, t), BlendChannel(low.r, high.r, t),
          BlendChannel(low.g, high.g, t), BlendChannel(low.b, high.b, t))
  }

  /** Halfway between two anchors every channel is the truncated mean of the
      anchors' channels. */
  lemma BlendMidpoint(index: int, lowIndex: int, low: Color, highIndex: int, high: Color)
    requires lowIndex < highIndex && index - lowIndex == highIndex - index
    ensures var c := Blend(index, lowIndex, low, highIndex, high);
      c.a == (low.a + high.a) / 2 && c.r == (low.r + high.r) / 2
      && c.g == (low.g + high.g) / 2 && c.b == (low.b + high.b) / 2
  {
    HalfWeight(index, lowIndex, highIndex);
    TruncatedMean(BlendChannel(low.a, high.a, 0.5), low.a, high.a);
    TruncatedMean(BlendChannel(low.r, high.r, 0.5), low.r, high.r);
    TruncatedMean(BlendChannel(low.g, high.g, 0.5), low.g, high.g);
    TruncatedMean(BlendChannel(low.b, high.b, 0.5), low.b, high.b);
  }

  /** Halfway between two anchors both get the weight one half. */
  lemma HalfWeight(index: int, lowIndex: int, highIndex: int)
    requires lowIndex < highIndex && index - lowIndex == highIndex - index
    ensures Weight(index, lowIndex, highIndex) == 0.5
  {
    var d := (index - lowIndex) as real;
    assert (highIndex - lowIndex) as real == 2.0 * d;
    assert Weight(index, lowIndex, highIndex) == d / (2.0 * d);
    assert d / (2.0 * d) == 0.5 by {
      assert 0.5 * (2.0 * d) == d;
    }
  }

  /** The byte cast of an equal-weight blend is the integer mean. */
  lemma TruncatedMean(v: int, c1: int, c2: int)
    requires TruncatedBlend(v, c1, c2, 0.5)
    ensures v == (c1 + c2) / 2
  {
    assert 2 * v <= c1 + c2 < 2 * v + 2 by {
      assert (1.0 - 0.5) * c1 as real + 0.5 * c2 as real == (c1 + c2) as real / 2.0;
    }
  }

  predicate Between(v: int, x: int, y: int)
  {
    (x <= v <= y) || (y <= v <= x)
  }

  /** GetColor: an anchor's own colour at its index, White for an empty
      palette, the nearest anchor's colour beyond the outermost anchors, and
      the truncating blend of the two neighbours in between. */
  function ColorAt(m: PointMap, index: int): (c: Color)
    ensures index in m ==> c == m[index].color
    ensures |m| == 0 ==> c == White
    ensures index !in m && Lower(m, index).None? && Higher(m, index).Some? ==> c == m[Higher(m, index).value].color
    ensures index !in m && Lower(m, index).Some? && Higher(m, index).None? ==> c == m[Lower(m, index).value].color
    ensures index !in m && Lower(m, index).Some? && Higher(m, index).Some? ==>
      var lo := Lower(m, index).value;
      var hi := Higher(m, index).value;
      c == Blend(index, lo, m[lo].color, hi, m[hi].color)
  {
    if index in m then m[index].color
    else
      var pair := Surrounding(m, index);
      if pair.lower.None? && pair.higher.None? then White
      else if pair.lower.None? then pair.higher.value.color
      else if pair.higher.None? then pair.lower.value.color
      else Blend(index, pair.lowIndex, pair.lower.value.color, pair.highIndex, pair.higher.value.color)
  }
}
