/**
 * A worked example: two road segments forming a right angle, (0,0)-(10,0) and (10,0)-(10,10)
 * in metres, and two clicks near the outer ends.
 */
module Scenario {
  import opened Wrappers
  import opened Geometry
  import opened RoadGraph
  import opened Snapping
  import opened PointSelection
  import opened Component
  import opened Animation

  const A: Coord := Coord(0, 0)
  const B: Coord := Coord(10000, 0)
  const C: Coord := Coord(10000, 10000)

  function RightAngle(): seq<Feature>
  {
    [Feature([[A, B]]), Feature([[B, C]])]
  }

  lemma RightAngleSegments()
    ensures AllHaveLines(RightAngle())
    ensures Segments(RightAngle()) == [Segment(A, B), Segment(B, C)]
  {
    var fs := RightAngle();
    assert fs[..1] == [Feature([[A, B]])];
    assert fs[..1][..0] == [];
  }

  /** The three corners become the nodes, in the order they are first met. */
  lemma RightAngleNodes(planar: (Coord, Coord) -> real)
    ensures AllHaveLines(RightAngle())
    ensures Build(Segments(RightAngle()), planar).nodes == [KeyOf(A), KeyOf(B), KeyOf(C)]
  {
    RightAngleSegments();
    var segs := [Segment(A, B), Segment(B, C)];
    assert segs[..1] == [Segment(A, B)];
    assert segs[..1][..0] == [];
    assert KeyOf(A) != KeyOf(B) && KeyOf(B) != KeyOf(C);
    assert Build(segs[..1][..0], planar) == EmptyGraph;
    var g1 := Build(segs[..1], planar);
    assert g1 == AddSegment(EmptyGraph, Segment(A, B), planar);
    assert AddNode(EmptyGraph, KeyOf(A)).nodes == [KeyOf(A)];
    assert g1.nodes == [KeyOf(A), KeyOf(B)];
    assert KeyOf(C) !in g1.adj;
  }

  /** The two legs are edges; the hypotenuse is not. */
  lemma RightAngleEdges(planar: (Coord, Coord) -> real)
    ensures AllHaveLines(RightAngle())
    ensures HasEdge(Build(Segments(RightAngle()), planar), KeyOf(A), KeyOf(B))
    ensures HasEdge(Build(Segments(RightAngle()), planar), KeyOf(C), KeyOf(B))
    ensures !HasEdge(Build(Segments(RightAngle()), planar), KeyOf(A), KeyOf(C))
  {
    RightAngleSegments();
    var segs := [Segment(A, B), Segment(B, C)];
    BuildEdges(segs, planar, KeyOf(A), KeyOf(B));
    assert Joins(segs[0], KeyOf(A), KeyOf(B));
    BuildEdges(segs, planar, KeyOf(C), KeyOf(B));
    assert Joins(segs[1], KeyOf(C), KeyOf(B));
    BuildEdges(segs, planar, KeyOf(A), KeyOf(C));
    assert KeyOf(A) != KeyOf(C) && KeyOf(A) != KeyOf(B) && KeyOf(B) != KeyOf(C);
    assert !Joins(segs[0], KeyOf(A), KeyOf(C)) && !Joins(segs[1], KeyOf(A), KeyOf(C));
    assert forall j :: 0 <= j < |segs| ==> !Joins(segs[j], KeyOf(A), KeyOf(C));
    assert !HasEdge(Build(segs, planar), KeyOf(A), KeyOf(C));
    assert Segments(RightAngle()) == segs;
  }

  /** The corners lie on whole centimetres, so keying and decoding gives them back. */
  lemma CornersDecode()
    ensures Decode(KeyOf(A)) == A && Decode(KeyOf(B)) == B && Decode(KeyOf(C)) == C
  {
    assert ToFixed(10000) == Fixed(false, 1000);
  }

  /** Clicks near the outer corners snap to those corners. */
  lemma RightAngleSnaps()
    ensures Nearest([KeyOf(A), KeyOf(B), KeyOf(C)], Coord(300, -200)) == Some(KeyOf(A))
    ensures Nearest([KeyOf(A), KeyOf(B), KeyOf(C)], Coord(9800, 10400)) == Some(KeyOf(C))
  {
    var ks := [KeyOf(A), KeyOf(B), KeyOf(C)];
    assert ks[..2] == [KeyOf(A), KeyOf(B)];
    assert ks[..2][..1] == [KeyOf(A)];
    assert ks[..2][..1][..0] == [];
    CornersDecode();
    var near, far := Coord(300, -200), Coord(9800, 10400);
    assert Nearest(ks[..2][..1], near) == Some(KeyOf(A));
    assert Nearest(ks[..2], near) == Some(KeyOf(A));
    assert Nearest(ks[..2][..1], far) == Some(KeyOf(A));
    assert Nearest(ks[..2], far) == Some(KeyOf(B));
  }

  /** Loading the right angle's roads builds a graph over its three corners. */
  method RightAngleLoaded(planar: (Coord, Coord) -> real, geo: (Coord, Coord) -> Length)
    returns (m: VehicleMap)
    ensures fresh(m) && m.Valid() && m.roadsVisible && !m.addingPoints && !m.running
    ensures m.clickPoints == [] && m.distanceTravelled == 0.0
    ensures m.roadGraph.nodes == [KeyOf(A), KeyOf(B), KeyOf(C)]
  {
    RightAngleNodes(planar);
    m := new VehicleMap(planar, geo);
    m.LoadRoads(RightAngle());
  }

  /** Clicking near the right angle's outer corners selects both clicks. */
  method RightAngleReady(planar: (Coord, Coord) -> real, geo: (Coord, Coord) -> Length)
    returns (m: VehicleMap)
    ensures fresh(m) && m.Valid() && m.roadsVisible && !m.running && m.distanceTravelled == 0.0
    ensures m.roadGraph.nodes == [KeyOf(A), KeyOf(B), KeyOf(C)]
    ensures m.clickPoints == [Coord(300, -200), Coord(9800, 10400)]
  {
    m := RightAngleLoaded(planar, geo);
    m.ToggleAddingPoints();
    m.HandleMapClick(Coord(300, -200));
    assert m.clickPoints == [Coord(300, -200)];
    m.HandleMapClick(Coord(9800, 10400));
  }

  /**
   * The whole flow on the right angle, with the path finder answering A, B, C: the
   * "Start Driving" button starts an animation along the corners.
   */
  method RightAngleStart(planar: (Coord, Coord) -> real, geo: (Coord, Coord) -> Length)
  {
    var m := RightAngleReady(planar, geo);
    RightAngleSnaps();
    CornersDecode();
    assert RouteCoords(KeyOf(A), [KeyOf(B), KeyOf(C)]) == [A, B, C];
    var outcome := m.StartDriving((g, s, e) => Path(s, [KeyOf(B), e]));
    assert outcome == Drive(KeyOf(A), KeyOf(C), [A, B, C]);
    assert m.running && m.vehicle == Some(A) && m.distanceTravelled == 0.0;
  }

  /** Along the corners the vehicle makes exactly two moves, adding the two legs' lengths. */
  method RightAngleTicks(m: VehicleMap)
    requires m.Valid() && m.running && m.roadsVisible && m.routeCoords == [A, B, C] && m.step == 0
    modifies m
  {
    var before := m.distanceTravelled;
    m.Tick();
    m.Tick();
    assert m.vehicle == Some(C) && m.distanceTravelled == before + m.geo(A, B) + m.geo(B, C);
    m.Tick();
    assert m.step == 2;
    assert m.trace == TraceUpTo([A, B, C], 2) == [A, B, C];
    assert !m.running && m.vehicle == Some(C);
  }
}
