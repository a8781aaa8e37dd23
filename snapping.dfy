/**
 * The point snapper `snapToGraph` (VehicleMap.js lines 301-309): a scan of the graph's keys
 * in insertion order that keeps the key whose decoded point is nearest to the click. The
 * comparison is a strict `<` against a running minimum that starts at `Infinity`, so the
 * first key always wins the first comparison and an equally near later key never replaces
 * the current one.
 */
module Snapping {
  import opened Wrappers
  import opened Geometry
  import opened RoadGraph

  /** Key j is nearest to c among ks, and strictly nearer than every key listed before it. */
  ghost predicate FirstNearestAt(ks: seq<Key>, c: Coord, j: int)
  {
    && 0 <= j < |ks|
    && (forall i :: 0 <= i < |ks| ==> SqDist(c, Decode(ks[j])) <= SqDist(c, Decode(ks[i])))
    && (forall i :: 0 <= i < j ==> SqDist(c, Decode(ks[j])) < SqDist(c, Decode(ks[i])))
  }

  /** The key the scan holds after visiting ks in order; `None` stands for `null`. */
  function Nearest(ks: seq<Key>, c: Coord): (r: Option<Key>)
    ensures r.None? <==> ks == []
    ensures r.Some? ==> r.value in ks
  {
    if ks == [] then None
    else
      var best := Nearest(ks[..|ks| - 1], c);
      var k := ks[|ks| - 1];
      if best.None? || SqDist(c, Decode(k)) < SqDist(c, Decode(best.value)) then Some(k) else best
  }

  /**
   * The scan finds nothing exactly when there are no keys; otherwise it finds the first of
   * the nearest keys, however far away it is.
   */
  lemma {:induction false} NearestIsFirstNearest(ks: seq<Key>, c: Coord)
    ensures Nearest(ks, c).None? <==> ks == []
    ensures ks != [] ==> exists j :: FirstNearestAt(ks, c, j) && Nearest(ks, c) == Some(ks[j])
  {
    if ks != [] {
      var n := |ks| - 1;
      var init := ks[..n];
      NearestIsFirstNearest(init, c);
      if init == [] {
        assert FirstNearestAt(ks, c, 0);
      } else {
        var j0 :| FirstNearestAt(init, c, j0) && Nearest(init, c) == Some(init[j0]);
        assert ks[j0] == init[j0];
        if SqDist(c, Decode(ks[n])) < SqDist(c, Decode(init[j0])) {
          LastIsFirstNearest(ks, c, j0);
        } else {
          EarlierStaysFirstNearest(ks, c, j0);
        }
      }
    }
  }

  /** A last key strictly nearer than the first nearest of the keys before it takes over. */
  lemma LastIsFirstNearest(ks: seq<Key>, c: Coord, j0: int)
    requires |ks| >= 2 && FirstNearestAt(ks[..|ks| - 1], c, j0)
    requires SqDist(c, Decode(ks[|ks| - 1])) < SqDist(c, Decode(ks[j0]))
    ensures FirstNearestAt(ks, c, |ks| - 1)
  {
    var n := |ks| - 1;
    forall i | 0 <= i < n ensures SqDist(c, Decode(ks[n])) < SqDist(c, Decode(ks[i])) {
      assert ks[i] == ks[..n][i];
    }
  }

  /** A last key that is not strictly nearer leaves the earlier first nearest in place. */
  lemma EarlierStaysFirstNearest(ks: seq<Key>, c: Coord, j0: int)
    requires |ks| >= 2 && FirstNearestAt(ks[..|ks| - 1], c, j0)
    requires SqDist(c, Decode(ks[j0])) <= SqDist(c, Decode(ks[|ks| - 1]))
    ensures FirstNearestAt(ks, c, j0)
  {
    var n := |ks| - 1;
    assert ks[j0] == ks[..n][j0];
    forall i | 0 <= i < |ks| ensures SqDist(c, Decode(ks[j0])) <= SqDist(c, Decode(ks[i])) {
      if i < n { assert ks[i] == ks[..n][i]; }
    }
    forall i | 0 <= i < j0 ensures SqDist(c, Decode(ks[j0])) < SqDist(c, Decode(ks[i])) {
      assert ks[i] == ks[..n][i];
    }
  }

  /** There is one first-nearest position at most, so the scan's answer is determined. */
  lemma FirstNearestUnique(ks: seq<Key>, c: Coord, j1: int, j2: int)
    requires FirstNearestAt(ks, c, j1) && FirstNearestAt(ks, c, j2)
    ensures j1 == j2
  {
    var d1, d2 := SqDist(c, Decode(ks[j1])), SqDist(c, Decode(ks[j2]));
    assert j1 < j2 ==> d2 < d1;
    assert j2 < j1 ==> d1 < d2;
  }

  /** `snapToGraph(coord)`: the loop over `Object.keys(roadGraph)`. */
  method SnapToGraph(g: Graph, c: Coord) returns (nearestKey: Option<Key>)
    ensures nearestKey == Nearest(g.nodes, c)
    ensures nearestKey.None? <==> g.nodes == []
    ensures nearestKey.Some? ==> exists j :: FirstNearestAt(g.nodes, c, j) && nearestKey.value == g.nodes[j]
  {
    nearestKey := None;
    var minDist: nat := 0;  // stands for Infinity while nearestKey is None
    var i := 0;
    while i < |g.nodes|
      invariant 0 <= i <= |g.nodes|
      invariant nearestKey == Nearest(g.nodes[..i], c)
      invariant nearestKey.Some? ==> minDist == SqDist(c, Decode(nearestKey.value))
    {
      var k := g.nodes[i];
      var d := SqDist(c, Decode(k));
      if nearestKey.None? || d < minDist {
        nearestKey, minDist := Some(k), d;
      }
      assert g.nodes[..i + 1][..i] == g.nodes[..i];
      i := i + 1;
    }
    assert g.nodes[..i] == g.nodes;
    NearestIsFirstNearest(g.nodes, c);
  }
}
