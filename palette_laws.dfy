/** What the palette operations keep: every anchor stays at the index its
    position maps to (so keys stay within the palette), rebuilding an
    anchored palette at the same size changes nothing, and spreading pins
    never fails on an anchored palette. */
module PaletteLaws {
  import opened Common
  import opened ColorPoints
  import opened PaletteMaps

  /** The entries of `m` whose keys occur in `ks`. */
  function Restrict(m: PointMap, ks: seq<int>): (r: PointMap)
    ensures forall k :: k in r <==> k in m && k in ks
    ensures forall k :: k in r ==> r[k] == m[k]
  {
    map k | k in m && k in ks :: m[k]
  }

  /** An anchored palette with at least one anchor has at least two colours,
      and every key lies in [0, n-1]. */
  lemma {:induction false} AnchoredKeysInRange(m: PointMap, n: int)
    requires Anchored(m, n)
    ensures |m| > 0 ==> 2 <= n
    ensures forall k :: k in m ==> 0 <= k <= n - 1
  {
    forall k | k in m
      ensures 2 <= n && 0 <= k <= n - 1
    {
      assert ColorIndex(m[k].position, n).Success?;
      IndexInRange(m[k].position, n);
    }
    if |m| > 0 {
      HasMember(m.Keys);
    }
  }

  /** The collision policy keeps a palette anchored when the point it is given
      maps onto the index it is offered, and then it never fails. */
  lemma {:induction false} TryToAddAnchored(m: PointMap, n: int, index: int, p: Point)
    requires Anchored(m, n) && 2 <= n && 0 <= index <= n - 1
    requires 0.0 <= p.position <= 1.0 && ColorIndex(p.position, n) == Success(index)
    ensures TryToAdd(m, n, index, p).Success?
    ensures Anchored(TryToAdd(m, n, index, p).value, n)
  {
    if index in m && index < n - 1 {
      var retry := if index > 0 then index - 1 else index + 1;
      if retry !in m {
        IndexPositionRoundTrip(retry, n);
      }
    }
  }

  /** AddColorPoint with a position in [0,1] never fails on a palette of at
      least two colours and keeps it anchored. */
  lemma {:induction false} AddPointAnchored(m: PointMap, n: int, p: Point)
    requires Anchored(m, n) && 2 <= n && 0.0 <= p.position <= 1.0
    ensures AddPoint(m, n, p).Success? && Anchored(AddPoint(m, n, p).value, n)
  {
    IndexInRange(p.position, n);
    TryToAddAnchored(m, n, ColorIndex(p.position, n).value, p);
  }

  /** Adding a sequence of points with positions in [0,1] never fails and
      keeps the palette anchored. */
  lemma {:induction false} AddAllAnchored(m: PointMap, n: int, ps: seq<Point>)
    requires Anchored(m, n) && 2 <= n
    requires forall i :: 0 <= i < |ps| ==> 0.0 <= ps[i].position <= 1.0
    ensures AddAll(m, n, ps).Success? && Anchored(AddAll(m, n, ps).value, n)
    decreases |ps|
  {
    if |ps| > 0 {
      AddAllAnchored(m, n, ps[..|ps| - 1]);
      AddPointAnchored(AddAll(m, n, ps[..|ps| - 1]).value, n, ps[|ps| - 1]);
    }
  }

  /** Changing the number of colours of a palette whose positions lie in
      [0,1] never fails and leaves it anchored under the new count. */
  lemma {:induction false} RedistributeAnchored(m: PointMap, n: int)
    requires 2 <= n && forall k :: k in m ==> 0.0 <= m[k].position <= 1.0
    ensures Redistribute(m, n).Success? && Anchored(Redistribute(m, n).value, n)
  {
    var ps := InOrder(m);
    forall i | 0 <= i < |ps|
      ensures 0.0 <= ps[i].position <= 1.0
    {
      assert SortedKeys(m.Keys)[i] in m;
    }
    AddAllAnchored(map[], n, ps);
  }

  /** Re-inserting anchors in increasing key order, each at its own key,
      rebuilds exactly the anchors seen so far. */
  lemma {:induction false} RebuildPrefix(m: PointMap, n: int, ks: seq<int>, ps: seq<Point>, i: nat)
    requires |ks| == |ps| && Increasing(ks) && i <= |ks|
    requires forall j :: 0 <= j < |ks| ==> ks[j] in m && ps[j] == m[ks[j]]
    requires forall j :: 0 <= j < |ks| ==> ColorIndex(ps[j].position, n) == Success(ks[j])
    ensures AddAll(map[], n, ps[..i]) == Success(Restrict(m, ks[..i]))
  {
    if i == 0 {
      assert Restrict(m, ks[..0]) == map[];
    } else {
      RebuildPrefix(m, n, ks, ps, i - 1);
      var acc := Restrict(m, ks[..i - 1]);
      AddAllSnoc(map[], n, ps, i, acc);
      LastKeyIsNew(m, ks, i);
      AddAtFreeIndex(acc, n, ks[i - 1], ps[i - 1]);
      RestrictStep(m, ks, i);
    }
  }

  /** Adding one more point continues from where the shorter prefix stopped. */
  lemma AddAllSnoc(m: PointMap, n: int, ps: seq<Point>, i: nat, acc: PointMap)
    requires 0 < i <= |ps| && AddAll(m, n, ps[..i - 1]) == Success(acc)
    ensures AddAll(m, n, ps[..i]) == AddPoint(acc, n, ps[i - 1])
  {
    assert ps[..i][..i - 1] == ps[..i - 1];
  }

  /** Once adding a prefix fails, adding the whole sequence fails the same way. */
  lemma {:induction false} AddAllFailureSticks(m: PointMap, n: int, ps: seq<Point>, i: nat)
    requires i <= |ps| && AddAll(m, n, ps[..i]).Failure?
    ensures AddAll(m, n, ps) == AddAll(m, n, ps[..i])
    decreases |ps| - i
  {
    if i < |ps| {
      assert ps[..|ps| - 1][..i] == ps[..i];
      AddAllFailureSticks(m, n, ps[..|ps| - 1], i);
    } else {
      assert ps[..i] == ps;
    }
  }

  /** Spreading one more pin continues from where the shorter prefix stopped. */
  lemma SpreadFromSnoc(ps: seq<Point>, k: int, n: int, i: nat, acc: PointMap)
    requires 0 < i <= |ps| <= k && SpreadFrom(ps[..i - 1], k, n) == Success(acc)
    ensures SpreadFrom(ps[..i], k, n) ==
      match PositionForIndex(SpreadIndex(i - 1, k, n), n)
      case Failure(e) => Failure(e)
      case Success(pos) => TryToAdd(acc, n, SpreadIndex(i - 1, k, n), Point(ps[i - 1].color, pos))
  {
    assert ps[..i][..i - 1] == ps[..i - 1];
  }

  /** Once spreading a prefix fails, spreading all pins fails the same way. */
  lemma {:induction false} SpreadFromFailureSticks(ps: seq<Point>, k: int, n: int, i: nat)
    requires i <= |ps| <= k && SpreadFrom(ps[..i], k, n).Failure?
    ensures SpreadFrom(ps, k, n) == SpreadFrom(ps[..i], k, n)
    decreases |ps| - i
  {
    if i < |ps| {
      assert ps[..|ps| - 1][..i] == ps[..i];
      SpreadFromFailureSticks(ps[..|ps| - 1], k, n, i);
    } else {
      assert ps[..i] == ps;
    }
  }

  /** A point whose index is free goes in unchanged. */
  lemma AddAtFreeIndex(m: PointMap, n: int, k: int, p: Point)
    requires k !in m && ColorIndex(p.position, n) == Success(k)
    ensures AddPoint(m, n, p) == Success(m[k := p])
  {
  }

  /** The i-th key of an increasing sequence is not among the keys before it. */
  lemma LastKeyIsNew(m: PointMap, ks: seq<int>, i: nat)
    requires Increasing(ks) && 0 < i <= |ks|
    ensures ks[i - 1] !in Restrict(m, ks[..i - 1])
  {
    forall j | 0 <= j < i - 1
      ensures ks[j] != ks[i - 1]
    {
    }

  }

  /** Extending the restriction by the next key adds exactly that entry. */
  lemma RestrictStep(m: PointMap, ks: seq<int>, i: nat)
    requires 0 < i <= |ks| && ks[i - 1] in m
    ensures Restrict(m, ks[..i - 1])[ks[i - 1] := m[ks[i - 1]]] == Restrict(m, ks[..i])
  {
    var k := ks[i - 1];
    forall x
      ensures x in ks[..i] <==> x in ks[..i - 1] || x == k
    {
      assert ks[..i] == ks[..i - 1] + [k];
    }
  }

  /** Setting NumberOfColors to the count an anchored palette already has
      leaves its anchors exactly as they were. */
  lemma {:induction false} RedistributeSameCount(m: PointMap, n: int)
    requires Anchored(m, n)
    ensures Redistribute(m, n) == Success(m)
  {
    KeyOrderAnchored(m, n);
    RebuildAll(m, n, SortedKeys(m.Keys), InOrder(m));
    RestrictToAllKeys(m);
  }

  lemma RebuildAll(m: PointMap, n: int, ks: seq<int>, ps: seq<Point>)
    requires |ks| == |ps| && Increasing(ks)
    requires forall j :: 0 <= j < |ks| ==> ks[j] in m && ps[j] == m[ks[j]]
    requires forall j :: 0 <= j < |ks| ==> ColorIndex(ps[j].position, n) == Success(ks[j])
    ensures AddAll(map[], n, ps) == Success(Restrict(m, ks))
  {
    RebuildPrefix(m, n, ks, ps, |ks|);
    assert ps[..|ks|] == ps;
    assert ks[..|ks|] == ks;
  }

  /** In key order, the i-th anchor of an anchored map sits at the i-th key. */
  lemma KeyOrderAnchored(m: PointMap, n: int)
    requires Anchored(m, n)
    ensures |SortedKeys(m.Keys)| == |InOrder(m)|
    ensures forall j :: 0 <= j < |SortedKeys(m.Keys)| ==>
      SortedKeys(m.Keys)[j] in m && InOrder(m)[j] == m[SortedKeys(m.Keys)[j]]
    ensures forall j :: 0 <= j < |SortedKeys(m.Keys)| ==>
      ColorIndex(InOrder(m)[j].position, n) == Success(SortedKeys(m.Keys)[j])
  {
  }

  /** Restricting a map to all of its keys gives the map back. */
  lemma RestrictToAllKeys(m: PointMap)
    ensures Restrict(m, SortedKeys(m.Keys)) == m
  {
    var r := Restrict(m, SortedKeys(m.Keys));
    SortedKeysCover(m.Keys);
    forall x
      ensures x in r <==> x in m
    {
    }
  }

  /** The indices 0 .. n-1. */
  function Indices(n: nat): (r: set<int>)
    ensures forall i :: i in r <==> 0 <= i < n
    ensures |r| == n
  {
    if n == 0 then {} else Indices(n - 1) + {n - 1}
  }

  /** An anchored palette holds at most one anchor per colour. */
  lemma {:induction false} AnchoredCount(m: PointMap, n: int)
    requires Anchored(m, n) && 2 <= n
    ensures |m| <= n
  {
    AnchoredKeysInRange(m, n);
    assert m.Keys <= Indices(n);
    SubsetSize(m.Keys, Indices(n));
  }

  lemma {:induction false} SubsetSize(a: set<int>, b: set<int>)
    requires a <= b
    ensures |a| <= |b|
  {
    assert b == a + (b - a);
  }

  /** A superset no larger than the set is the set itself. */
  lemma NoLargerSuperset(a: set<int>, b: set<int>)
    requires a <= b && |b| <= |a|
    ensures a == b
  {
    assert b == a + (b - a);
    assert |b - a| == 0;
  }

  /** With no more anchors than colours, every pin lands inside the palette. */
  lemma {:induction false} SpreadIndexInRange(i: int, k: int, n: int)
    requires 2 <= n && 1 <= k <= n && 0 <= i < k
    ensures 0 <= SpreadIndex(i, k, n) <= n - 1
    ensures 0 < i < k - 1 ==> SpreadIndex(i, k, n) <= n - 2
  {
    if 0 < i < k - 1 {
      var d := (k - 1) as real;
      var s := n as real / d;
      assert s * d == n as real;
      assert 1.0 <= s by {
        assert d <= n as real;
        SignOfProduct(s - 1.0, d);
        assert (s - 1.0) * d == n as real - d;
      }
      var v := i as real * s;
      ScaledBetween(i as real, (k - 2) as real, s, d, n as real, v);
      TruncBetween(v + 0.5, 1, n - 1);
    }
  }

  /** For 1 <= i <= k-2 and s = n/(k-1) >= 1: s <= i*s <= n - s. */
  lemma ScaledBetween(i: real, top: real, s: real, d: real, n: real, v: real)
    requires 1.0 <= i <= top && 1.0 <= s && d == top + 1.0 && s * d == n && v == i * s
    ensures 1.0 <= v && v <= n - 1.0
  {
    assert v - s == (i - 1.0) * s;
    assert (top * s) - v == (top - i) * s;
    assert top * s == n - s;
  }

  /** Spreading the first |ps| of k <= n pins keeps the palette anchored and never fails. */
  lemma {:induction false} SpreadFromAnchored(ps: seq<Point>, k: int, n: int)
    requires 2 <= n && |ps| <= k <= n
    ensures SpreadFrom(ps, k, n).Success? && Anchored(SpreadFrom(ps, k, n).value, n)
    decreases |ps|
  {
    if |ps| > 0 {
      SpreadFromAnchored(ps[..|ps| - 1], k, n);
      var acc := SpreadFrom(ps[..|ps| - 1], k, n).value;
      var i := |ps| - 1;
      var idx := SpreadIndex(i, k, n);
      SpreadIndexInRange(i, k, n);
      IndexPositionRoundTrip(idx, n);
      var pos := PositionForIndex(idx, n).value;
      TryToAddAnchored(acc, n, idx, Point(ps[i].color, pos));
    }
  }


  /** A successful spread keeps every anchor that a shorter prefix of the
      pins placed. */
  lemma {:induction false} SpreadFromKeeps(ps: seq<Point>, k: int, n: int, j: nat)
    requires j <= |ps| <= k && SpreadFrom(ps, k, n).Success?
    ensures SpreadFrom(ps[..j], k, n).Success?
    ensures forall key :: key in SpreadFrom(ps[..j], k, n).value ==>
      key in SpreadFrom(ps, k, n).value && SpreadFrom(ps, k, n).value[key] == SpreadFrom(ps[..j], k, n).value[key]
    decreases |ps|
  {
    if j == |ps| {
      assert ps[..j] == ps;
    } else {
      var front := ps[..|ps| - 1];
      assert front[..j] == ps[..j];
      SpreadFromKeeps(front, k, n, j);
    }
  }

  /** Before the last of k <= n pins is placed, every anchor sits below n-1. */
  lemma {:induction false} SpreadFromBelowLast(ps: seq<Point>, k: int, n: int)
    requires 2 <= n && |ps| < k <= n
    ensures SpreadFrom(ps, k, n).Success?
    ensures forall key :: key in SpreadFrom(ps, k, n).value ==> key <= n - 2
    decreases |ps|
  {
    if |ps| > 0 {
      var front := ps[..|ps| - 1];
      SpreadFromBelowLast(front, k, n);
      var acc := SpreadFrom(front, k, n).value;
      var i := |ps| - 1;
      var idx := SpreadIndex(i, k, n);
      SpreadIndexInRange(i, k, n);
      var pos := PositionForIndex(idx, n).value;
      assert ps[..|ps|] == ps;
      SpreadFromSnoc(ps, k, n, |ps|, acc);
      if i == 0 {
        assert front == [];
      }
      TryToAddBelow(acc, n, idx, Point(ps[i].color, pos), n - 2);
    }
  }

  /** Inserting at or below a bound, into a map whose keys are all at or
      below it, keeps every key at or below it, provided a retry would too. */
  lemma TryToAddBelow(m: PointMap, n: int, index: int, p: Point, bound: int)
    requires forall key :: key in m ==> key <= bound
    requires index <= bound && (index in m ==> Retry(index) <= bound)
    ensures TryToAdd(m, n, index, p).Success? ==> forall key :: key in TryToAdd(m, n, index, p).value ==> key <= bound
  {
  }

  /** The pin placed i-th lands on its spread index when that index is free. */
  lemma SpreadFromPlaces(ps: seq<Point>, k: int, n: int, i: nat)
    requires 2 <= n && i < |ps| <= k <= n
    requires SpreadFrom(ps[..i], k, n).Success? && SpreadIndex(i, k, n) !in SpreadFrom(ps[..i], k, n).value
    ensures SpreadFrom(ps[..i + 1], k, n).Success?
    ensures var acc := SpreadFrom(ps[..i + 1], k, n).value;
      SpreadIndex(i, k, n) in acc && acc[SpreadIndex(i, k, n)].color == ps[i].color
  {
    SpreadIndexInRange(i, k, n);
    SpreadFromSnoc(ps, k, n, i + 1, SpreadFrom(ps[..i], k, n).value);
  }

  /** Spreading k >= 2 pins, k <= n, succeeds: the first pin's colour lands
      at 0 (alone after the first step) and the last one's at n-1. */
  lemma {:induction false} SpreadFromEnds(ps: seq<Point>, n: int)
    requires 2 <= |ps| <= n
    ensures SpreadFrom(ps, |ps|, n).Success?
    ensures var r := SpreadFrom(ps, |ps|, n).value;
      0 in r && r[0].color == ps[0].color && n - 1 in r && r[n - 1].color == ps[|ps| - 1].color
    ensures SpreadFrom(ps[..1], |ps|, n).Success? && SpreadFrom(ps[..1], |ps|, n).value.Keys == {0}
  {
    var k := |ps|;
    // the last pin finds n-1 free, so the whole spread succeeds
    SpreadFromBelowLast(ps[..k - 1], k, n);
    SpreadFromPlaces(ps, k, n, k - 1);
    assert ps[..k] == ps;
    // the first pin goes into the empty map
    assert ps[..0] == [];
    SpreadFromPlaces(ps, k, n, 0);
    SpreadFromKeeps(ps, k, n, 1);
  }

  /** In a successful spread of k pins every middle pin's colour lands at its
      spread index whenever no earlier pin took that index. */
  lemma {:induction false} SpreadFromMiddles(ps: seq<Point>, n: int)
    requires 2 <= |ps| <= n && SpreadFrom(ps, |ps|, n).Success?
    ensures forall i :: 0 < i < |ps| - 1 ==> SpreadFrom(ps[..i], |ps|, n).Success?
    ensures var r := SpreadFrom(ps, |ps|, n).value;
      forall i :: 0 < i < |ps| - 1 && SpreadIndex(i, |ps|, n) !in SpreadFrom(ps[..i], |ps|, n).value ==>
        SpreadIndex(i, |ps|, n) in r && r[SpreadIndex(i, |ps|, n)].color == ps[i].color
  {
    var k := |ps|;
    var r := SpreadFrom(ps, k, n).value;
    forall i | 0 < i < k - 1
      ensures SpreadFrom(ps[..i], k, n).Success?
    {
      SpreadFromKeeps(ps, k, n, i);
    }
    forall i | 0 < i < k - 1 && SpreadIndex(i, k, n) !in SpreadFrom(ps[..i], k, n).value
      ensures SpreadIndex(i, k, n) in r && r[SpreadIndex(i, k, n)].color == ps[i].color
    {
      SpreadFromPlaces(ps, k, n, i);
      SpreadFromKeeps(ps, k, n, i + 1);
    }
  }

  /** Where SpreadPinsEvenly puts the k >= 2 anchors of an anchored palette:
      the first anchor's colour at index 0, the last one's at n-1, and each
      middle anchor's at its spread index whenever no earlier anchor took that
      index (otherwise the collision policy of TryToAdd decides). */
  lemma {:induction false} SpreadPlacement(m: PointMap, n: int)
    requires Anchored(m, n) && 2 <= |m|
    ensures Spread(m, n).Success?
    ensures var r := Spread(m, n).value; var ps := InOrder(m);
      0 in r && r[0].color == ps[0].color
      && n - 1 in r && r[n - 1].color == ps[|m| - 1].color
    ensures SpreadFrom(InOrder(m)[..1], |m|, n).Success?
      && SpreadFrom(InOrder(m)[..1], |m|, n).value.Keys == {0}
    ensures forall i :: 0 < i < |m| - 1 ==> SpreadFrom(InOrder(m)[..i], |m|, n).Success?
    ensures var r := Spread(m, n).value; var ps := InOrder(m);
      forall i :: 0 < i < |m| - 1 && SpreadIndex(i, |m|, n) !in SpreadFrom(ps[..i], |m|, n).value ==>
        SpreadIndex(i, |m|, n) in r && r[SpreadIndex(i, |m|, n)].color == ps[i].color
  {
    AnchoredKeysInRange(m, n);
    AnchoredCount(m, n);
    SpreadFromEnds(InOrder(m), n);
    SpreadFromMiddles(InOrder(m), n);
  }

  /** The example pinned by the original design: any three anchors in a
      palette of 100 colours go to 0, 49 and 99, in key order. */
  lemma SpreadMiddleOfThree(m: PointMap)
    requires |m| == 3
    ensures Spread(m, 100).Success?
    ensures var r := Spread(m, 100).value; var ps := InOrder(m);
      r.Keys == {0, 49, 99}
      && r[0].color == ps[0].color && r[49].color == ps[1].color && r[99].color == ps[2].color
  {
    var ps := InOrder(m);
    assert SpreadIndex(1, 3, 100) == 49 by {
      assert 1.0 * (100.0 / 2.0) + 0.5 == 50.5;
    }
    SpreadFromEnds(ps, 100);
    SpreadFromMiddles(ps, 100);
    var r := Spread(m, 100).value;
    var pins: set<int> := {0, 49, 99};
    assert |pins| == 3;
    NoLargerSuperset(pins, r.Keys);
  }

  /** SpreadPinsEvenly never fails on an anchored palette and keeps it anchored. */
  lemma {:induction false} SpreadAnchored(m: PointMap, n: int)
    requires Anchored(m, n)
    ensures Spread(m, n).Success? && Anchored(Spread(m, n).value, n)
  {
    if |m| > 0 {
      AnchoredKeysInRange(m, n);
      AnchoredCount(m, n);
      SpreadFromAnchored(InOrder(m), |m|, n);
    }
  }

  /** MoveColorPoint keeps a palette anchored. */
  lemma {:induction false} MoveAnchored(m: PointMap, n: int, oldIndex: int, newIndex: int)
    requires Anchored(m, n) && Move(m, n, oldIndex, newIndex).Success?
    ensures Anchored(Move(m, n, oldIndex, newIndex).value, n)
  {
    var pos := PositionForIndex(newIndex, n).value;
    IndexPositionRoundTrip(newIndex, n);
    TryToAddAnchored(m - {oldIndex}, n, newIndex, Point(m[oldIndex].color, pos));
  }

  /** RemoveColorPoint keeps a palette anchored. */
  lemma {:induction false} RemoveAnchored(m: PointMap, n: int, index: int)
    requires Anchored(m, n) && Remove(m, index).Success?
    ensures Anchored(Remove(m, index).value, n)
  {
    var r := Remove(m, index).value;
    forall k | k in r
      ensures 0.0 <= r[k].position <= 1.0 && ColorIndex(r[k].position, n) == Success(k)
    {
      assert r[k] == m[k];
    }
  }
}
