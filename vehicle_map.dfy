/**
 * The routing state of the `VehicleMap` component (VehicleMap.js): the road graph, the selected
 * points, the distance counter, the vehicle marker, and the closure state of the latest
 * driving animation (its step index, pulse radius and direction, and the travelled trace).
 *
 * A call of a method is one event: the roads finishing loading, a layer toggle, a map click,
 * the "Start Driving" button, or one firing of the animation's 100 ms interval. `running`
 * says whether that interval is still live; a cleared interval never fires again.
 */
module Component {
  import opened Wrappers
  import opened Geometry
  import opened RoadGraph
  import opened Snapping
  import opened PointSelection
  import opened Animation

  /**
   * The roads source has an empty extent: no feature has a single coordinate. `View.fit`
   * refuses an empty extent.
   */
  predicate EmptyExtent(features: seq<Feature>)
  {
    forall j, l | 0 <= j < |features| && 0 <= l < |features[j].lines| :: features[j].lines[l] == []
  }

  class VehicleMap {
    /** `Math.hypot` of the coordinate differences, the edge weight of the road graph. */
    const planar: (Coord, Coord) -> real
    /** `getDistance(toLonLat(p), toLonLat(q))`: metres along the earth's surface. */
    const geo: (Coord, Coord) -> Length

    var roadsLoaded: bool              // `layers.roads` is set
    var roadsVisible: bool             // `layers.roads.getVisible()`
    var addingPoints: bool
    var roadGraph: Graph
    var clickPoints: seq<Coord>
    var popupMessage: string
    var distanceTravelled: real
    var vehicle: Option<Coord>         // the vehicle marker's position, once it exists

    var running: bool                  // the latest animation's interval is live
    var routeCoords: seq<Coord>
    var step: nat                      // the closure's `i`
    var pulseRadius: int               // in half-pixels
    var growing: bool
    var trace: seq<Coord>              // the travel line's coordinates
    /** The distance counter when the latest animation started. */
    ghost var startDistance: real

    ghost predicate Valid()
      reads this
    {
      && (roadsVisible ==> roadsLoaded)
      && WellFormed(roadGraph) && Symmetric(roadGraph)
      && |clickPoints| <= 2
      && AnimationValid()
    }

    /**
     * The closure state of the latest animation agrees with its step index: the trace, the
     * pulse, the distance counter and, while the interval is live, the vehicle marker.
     */
    ghost predicate AnimationValid()
      reads this`routeCoords, this`running, this`step, this`trace, this`pulseRadius, this`growing
      reads this`distanceTravelled, this`startDistance, this`vehicle
    {
      && (routeCoords == [] ==> !running && step == 0 && trace == [])
      && (routeCoords != [] ==> step < |routeCoords| && trace == TraceUpTo(routeCoords, step))
      && Pulse(pulseRadius, growing) == PulseAfter(step)
      && distanceTravelled == startDistance + Travelled(routeCoords, step, geo)
      && (running ==> vehicle == Some(routeCoords[step]))
    }

    /** The component once mounted: an empty graph `{}`, no points, no roads layer yet. */
    constructor (planar: (Coord, Coord) -> real, geo: (Coord, Coord) -> Length)
      ensures Valid()
      ensures this.planar == planar && this.geo == geo
      ensures !roadsLoaded && !roadsVisible && !addingPoints
      ensures roadGraph == EmptyGraph && clickPoints == [] && popupMessage == ""
      ensures distanceTravelled == 0.0 && vehicle == None && !running
    {
      this.planar, this.geo := planar, geo;
      roadsLoaded, roadsVisible, addingPoints := false, false, false;
      roadGraph, clickPoints, popupMessage := EmptyGraph, [], "";
      distanceTravelled, vehicle := 0.0, None;
      running, routeCoords, step := false, [], 0;
      pulseRadius, growing, trace := PulseMin, true, [];
      startDistance := 0.0;
    }

    /**
     * The roads have loaded (lines 145-183): the roads layer is added and shown, the view is
     * fitted to the roads' extent, and the graph is built from the features. Fitting to an
     * empty extent throws (line 166), and so does the builder on a feature without a first
     * line; either way the graph keeps its previous value.
     */
    method LoadRoads(features: seq<Feature>)
      requires Valid()
      modifies this`roadsLoaded, this`roadsVisible, this`roadGraph
      ensures Valid()
      ensures roadsLoaded && roadsVisible
      ensures AllHaveLines(features) && !EmptyExtent(features) ==> roadGraph == Build(Segments(features), planar)
      ensures !AllHaveLines(features) || EmptyExtent(features) ==> roadGraph == old(roadGraph)
      ensures addingPoints == old(addingPoints) && clickPoints == old(clickPoints)
      ensures popupMessage == old(popupMessage) && distanceTravelled == old(distanceTravelled)
      ensures vehicle == old(vehicle) && running == old(running) && routeCoords == old(routeCoords)
      ensures step == old(step) && pulseRadius == old(pulseRadius) && growing == old(growing) && trace == old(trace)
    {
      roadsLoaded, roadsVisible := true, true;
      if EmptyExtent(features) {
        return;
      }
      BuildFrom(features);
    }

    /** Lines 169-182: the builder's graph replaces `roadGraph` unless the builder throws. */
    method BuildFrom(features: seq<Feature>)
      requires Valid()
      modifies this`roadGraph
      ensures Valid()
      ensures AllHaveLines(features) ==> roadGraph == Build(Segments(features), planar)
      ensures !AllHaveLines(features) ==> roadGraph == old(roadGraph)
    {
      var built := BuildRoadGraph(features, planar);
      if built.Some? {
        roadGraph := built.value;
      }
    }

    /** The roads layer's toggle button (lines 253-256): nothing until the layer exists. */
    method ToggleRoads()
      requires Valid()
      modifies this`roadsVisible
      ensures Valid()
      ensures roadsVisible == (if roadsLoaded then !old(roadsVisible) else old(roadsVisible))
    {
      if roadsLoaded {
        roadsVisible := !roadsVisible;
      }
    }

    /** The "Enable Add Points" button (line 503). */
    method ToggleAddingPoints()
      requires Valid()
      modifies this`addingPoints
      ensures Valid()
      ensures addingPoints == !old(addingPoints)
    {
      addingPoints := !addingPoints;
    }

    /**
     * A map click (lines 262-279). Replacing a complete pair also clears the animation's
     * interval and moves an existing vehicle marker to the click.
     */
    method HandleMapClick(c: Coord)
      requires Valid()
      modifies this
      ensures Valid()
      ensures var r := HandleClick(old(addingPoints), old(roadsVisible), true, old(clickPoints), c);
        && clickPoints == (if r.Accepted? then r.points else old(clickPoints))
        && running == (old(running) && !(r.Accepted? && r.cancelsAnimation))
        && vehicle == (if r.Accepted? && r.cancelsAnimation && old(vehicle).Some? then Some(c) else old(vehicle))
      ensures 1 <= |clickPoints| <= 2 || clickPoints == old(clickPoints)
      ensures roadsLoaded == old(roadsLoaded) && roadsVisible == old(roadsVisible) && addingPoints == old(addingPoints)
      ensures roadGraph == old(roadGraph) && popupMessage == old(popupMessage)
      ensures distanceTravelled == old(distanceTravelled) && routeCoords == old(routeCoords) && step == old(step)
      ensures pulseRadius == old(pulseRadius) && growing == old(growing) && trace == old(trace)
    {
      var r := HandleClick(addingPoints, roadsVisible, true, clickPoints, c);
      if r.Accepted? {
        clickPoints := r.points;
        if r.cancelsAnimation {
          running := false;
          if vehicle.Some? {
            vehicle := Some(c);
          }
        }
      }
    }

    /**
     * The "Start Driving" button (lines 297-380). A guard that fails leaves every animation
     * as it was; a route that is found replaces the previous animation by a new one from its
     * first coordinate. The distance counter is never reset.
     */
    method StartDriving(findPath: (Graph, Key, Key) -> PathResult) returns (outcome: StartOutcome)
      requires Valid()
      modifies this
      ensures Valid()
      ensures outcome == CheckStart(old(roadsVisible), old(clickPoints), old(roadGraph), true, findPath)
      ensures outcome.Silent? <==> old(roadsVisible) && |old(clickPoints)| == 2 && old(roadGraph).adj == map[]
      ensures outcome.Advisory? ==> popupMessage == outcome.message
      ensures !outcome.Advisory? ==> popupMessage == old(popupMessage)
      ensures !outcome.Drive? ==>
        && running == old(running) && routeCoords == old(routeCoords) && step == old(step)
        && vehicle == old(vehicle) && trace == old(trace) && pulseRadius == old(pulseRadius) && growing == old(growing)
      ensures outcome.Drive? ==>
        && running && routeCoords == outcome.route && step == 0
        && vehicle == Some(outcome.route[0]) && trace == [outcome.route[0]]
        && pulseRadius == PulseMin && growing
      ensures distanceTravelled == old(distanceTravelled)
      ensures roadsLoaded == old(roadsLoaded) && roadsVisible == old(roadsVisible) && addingPoints == old(addingPoints)
      ensures roadGraph == old(roadGraph) && clickPoints == old(clickPoints)
    {
      if !roadsVisible {
        popupMessage := RoadsHiddenMessage;
        return Advisory(RoadsHiddenMessage);
      }
      if |clickPoints| < 2 {
        popupMessage := SelectPointsMessage;
        return Advisory(SelectPointsMessage);
      }
      var startKey := SnapToGraph(roadGraph, clickPoints[0]);
      var endKey := SnapToGraph(roadGraph, clickPoints[1]);
      if startKey.None? || endKey.None? {
        assert roadGraph.adj == map[] by { assert roadGraph.nodes == []; }
        return Silent;
      }
      var pathKeys := findPath(roadGraph, startKey.value, endKey.value);
      if pathKeys.NoPath? {
        popupMessage := NoPathMessage;
        return Advisory(NoPathMessage);
      }
      var route := RouteCoords(pathKeys.first, pathKeys.rest);
      BeginAnimation(route);
      outcome := Drive(startKey.value, endKey.value, route);
    }

    /**
     * Lines 322-339 and 380: the vehicle marker is put on the route's first coordinate, the
     * previous interval is cleared and a new one starts from step 0 with the radius at 8 px.
     */
    method BeginAnimation(route: seq<Coord>)
      requires Valid() && route != []
      modifies this`vehicle, this`running, this`routeCoords, this`step, this`pulseRadius, this`growing, this`trace,
        this`startDistance
      ensures Valid()
      ensures running && routeCoords == route && step == 0
      ensures vehicle == Some(route[0]) && trace == [route[0]]
      ensures pulseRadius == PulseMin && growing
      ensures distanceTravelled == old(distanceTravelled) && popupMessage == old(popupMessage)
      ensures roadsLoaded == old(roadsLoaded) && roadsVisible == old(roadsVisible) && addingPoints == old(addingPoints)
      ensures roadGraph == old(roadGraph) && clickPoints == old(clickPoints)
    {
      assert [route[0]] == TraceUpTo(route, 0);
      assert Travelled(route, 0, geo) == 0.0;
      assert PulseAfter(0) == Pulse(PulseMin, true);
      vehicle, running, routeCoords, step := Some(route[0]), true, route, 0;
      pulseRadius, growing, trace, startDistance := PulseMin, true, [route[0]], distanceTravelled;
    }

    /**
     * One firing of the animation's interval (lines 341-378). With the roads shown and a next
     * coordinate left, the vehicle moves to it, its segment's great-circle length is added to
     * the distance, the radius takes one pulse step, the trace grows to include it, and the
     * step index goes up by one. Otherwise the interval is cleared and nothing else changes.
     */
    method Tick()
      requires Valid() && running
      modifies this
      ensures Valid()
      ensures var moved := old(roadsVisible) && old(step) + 1 < |old(routeCoords)|;
        && (moved ==> && running && step == old(step) + 1
                      && vehicle == Some(routeCoords[step])
                      && trace == TraceUpTo(routeCoords, step)
                      && distanceTravelled == old(distanceTravelled) + geo(routeCoords[old(step)], routeCoords[step])
                      && Pulse(pulseRadius, growing) == PulseStep(Pulse(old(pulseRadius), old(growing))))
        && (!moved ==> && !running && step == old(step) && vehicle == old(vehicle) && trace == old(trace)
                       && distanceTravelled == old(distanceTravelled)
                       && pulseRadius == old(pulseRadius) && growing == old(growing))
      ensures distanceTravelled >= old(distanceTravelled)
      ensures PulseMin <= pulseRadius <= PulseMax
      ensures step < |routeCoords|
      ensures distanceTravelled == startDistance + Travelled(routeCoords, step, geo)
      ensures routeCoords == old(routeCoords) && startDistance == old(startDistance)
      ensures roadsLoaded == old(roadsLoaded) && roadsVisible == old(roadsVisible) && addingPoints == old(addingPoints)
      ensures roadGraph == old(roadGraph) && clickPoints == old(clickPoints) && popupMessage == old(popupMessage)
    {
      if roadsVisible && step + 1 < |routeCoords| {
        Advance();
      } else {
        running := false;
      }
      PulseInRange(step);
    }

    /** The moving branch of a tick (lines 347-376): one step along the route. */
    method Advance()
      requires Valid() && running && step + 1 < |routeCoords|
      modifies this`distanceTravelled, this`vehicle, this`pulseRadius, this`growing, this`trace, this`step
      ensures Valid()
      ensures step == old(step) + 1 && vehicle == Some(routeCoords[step])
      ensures trace == TraceUpTo(routeCoords, step)
      ensures distanceTravelled == old(distanceTravelled) + geo(routeCoords[old(step)], routeCoords[step])
      ensures Pulse(pulseRadius, growing) == PulseStep(Pulse(old(pulseRadius), old(growing)))
    {
      var prevCoord, currCoord := routeCoords[step], routeCoords[step + 1];
      distanceTravelled := distanceTravelled + geo(prevCoord, currCoord);
      vehicle := Some(currCoord);
      var pulse := PulseStep(Pulse(pulseRadius, growing));
      pulseRadius, growing := pulse.radius, pulse.growing;
      trace := routeCoords[..step + 2];
      step := step + 1;
      assert Travelled(routeCoords, step, geo) == Travelled(routeCoords, step - 1, geo) + geo(prevCoord, currCoord);
    }
  }
}
