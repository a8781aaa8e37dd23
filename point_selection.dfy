/**
 * Choosing the start and end points (VehicleMap.js lines 262-279) and the guards that
 * `startDriving` checks before it animates (lines 297-321).
 */
module PointSelection {
  import opened Geometry
  import opened RoadGraph
  import opened Snapping

  /** The list of selected points after a click at c (lines 266-277). */
  function NextClickPoints(points: seq<Coord>, c: Coord): (r: seq<Coord>)
    ensures 1 <= |r| <= 2 && r[|r| - 1] == c
    ensures |r| == 2 <==> |points| == 1
    ensures |r| == 2 ==> r[0] == points[0]
  {
    if |points| == 0 then [c]
    else if |points| == 1 then [points[0], c]
    else [c]
  }

  /** What a map click does: nothing, or a new point list and possibly cancelling the animation. */
  datatype ClickResult = Ignored | Accepted(points: seq<Coord>, cancelsAnimation: bool)

  /**
   * `handleMapClick`: ignored unless adding points is on, the roads layer is shown and the
   * map exists; a click that replaces a complete pair also cancels the running animation.
   */
  function HandleClick(addingPoints: bool, roadsShown: bool, mapReady: bool, points: seq<Coord>, c: Coord): (r: ClickResult)
    ensures r.Ignored? <==> !addingPoints || !roadsShown || !mapReady
    ensures r.Accepted? ==> r.points == NextClickPoints(points, c)
    ensures r.Accepted? ==> (r.cancelsAnimation <==> |points| >= 2)
  {
    if !addingPoints || !roadsShown || !mapReady then Ignored
    else Accepted(NextClickPoints(points, c), |points| >= 2)
  }

  /** The point list after accepting the clicks cs, in order, from no points. */
  function AfterClicks(cs: seq<Coord>): seq<Coord>
  {
    if cs == [] then [] else NextClickPoints(AfterClicks(cs[..|cs| - 1]), cs[|cs| - 1])
  }

  /**
   * Clicks pair up: after an odd number of clicks only the last one is selected (a start);
   * after an even number the last two are the start and the end.
   */
  lemma {:induction false} ClicksPairUp(cs: seq<Coord>)
    ensures cs == [] ==> AfterClicks(cs) == []
    ensures cs != [] && |cs| % 2 == 1 ==> AfterClicks(cs) == [cs[|cs| - 1]]
    ensures cs != [] && |cs| % 2 == 0 ==> AfterClicks(cs) == [cs[|cs| - 2], cs[|cs| - 1]]
  {
    if cs != [] {
      var init := cs[..|cs| - 1];
      ClicksPairUp(init);
      if init != [] && |init| % 2 == 1 {
        assert init[|init| - 1] == cs[|cs| - 2];
      }
    }
  }

  /** What the path finder `dijkstra.find_path` gives: a failure, or a key sequence (never empty). */
  datatype PathResult = NoPath | Path(first: Key, rest: seq<Key>)

  const RoadsHiddenMessage: string := "Turn on roads layer first!"
  const SelectPointsMessage: string := "Select start and end points!"
  const NoPathMessage: string := "No path found along roads!"

  /** How `startDriving` ends: an advisory popup, a silent return, or an animation of a route. */
  datatype StartOutcome = Advisory(message: string) | Silent | Drive(startKey: Key, endKey: Key, route: seq<Coord>)

  /** `pathKeys.map(k => k.split('|').map(Number))` (line 321). */
  function RouteCoords(first: Key, rest: seq<Key>): (r: seq<Coord>)
    ensures |r| == |rest| + 1 && r[0] == Decode(first)
    ensures forall i :: 0 <= i < |rest| ==> r[i + 1] == Decode(rest[i])
  {
    [Decode(first)] + seq(|rest|, i requires 0 <= i < |rest| => Decode(rest[i]))
  }

  /**
   * The guards of `startDriving`, in order. The `!roadGraph` test of line 299 never fires
   * (the graph starts as `{}`, which is truthy), so an empty graph gets past it and both
   * snaps come back `null`: the return at line 313 is silent.
   */
  function CheckStart(roadsShown: bool, points: seq<Coord>, graph: Graph, mapReady: bool,
                      findPath: (Graph, Key, Key) -> PathResult): (r: StartOutcome)
    ensures r.Advisory? ==> r.message in {RoadsHiddenMessage, SelectPointsMessage, NoPathMessage}
    ensures r.Drive? ==> r.startKey in graph.nodes && r.endKey in graph.nodes && |r.route| >= 1
    ensures r.Drive? ==> findPath(graph, r.startKey, r.endKey).Path?
    ensures r.Drive? ==> r.route == RouteCoords(findPath(graph, r.startKey, r.endKey).first,
                                                findPath(graph, r.startKey, r.endKey).rest)
  {
    if !roadsShown then Advisory(RoadsHiddenMessage)
    else if |points| < 2 || !mapReady then Advisory(SelectPointsMessage)
    else
      var startKey := Nearest(graph.nodes, points[0]);
      var endKey := Nearest(graph.nodes, points[1]);
      if startKey.None? || endKey.None? then Silent
      else match findPath(graph, startKey.value, endKey.value)
        case NoPath => Advisory(NoPathMessage)
        case Path(first, rest) => Drive(startKey.value, endKey.value, RouteCoords(first, rest))
  }

  /** The four ways `startDriving` can end, each with the exact condition that leads to it. */
  lemma StartOutcomes(roadsShown: bool, points: seq<Coord>, graph: Graph, mapReady: bool,
                      findPath: (Graph, Key, Key) -> PathResult)
    ensures var r := CheckStart(roadsShown, points, graph, mapReady, findPath);
      && (r == Advisory(RoadsHiddenMessage) <==> !roadsShown)
      && (r == Advisory(SelectPointsMessage) <==> roadsShown && (|points| < 2 || !mapReady))
      && (r.Silent? <==> roadsShown && |points| >= 2 && mapReady && graph.nodes == [])
      && (r == Advisory(NoPathMessage) <==>
            roadsShown && |points| >= 2 && mapReady && graph.nodes != []
            && findPath(graph, Nearest(graph.nodes, points[0]).value, Nearest(graph.nodes, points[1]).value).NoPath?)
  {
    if roadsShown && |points| >= 2 && mapReady {
      NearestIsFirstNearest(graph.nodes, points[0]);
      NearestIsFirstNearest(graph.nodes, points[1]);
    }
  }

  /**
   * A route is animated only with the roads shown and two points selected; the path finder
   * returns a path between the first nearest keys of the two points, and the route animated is
   * that path's keys decoded in order.
   */
  lemma DriveSnapsBothPoints(roadsShown: bool, points: seq<Coord>, graph: Graph, mapReady: bool,
                             findPath: (Graph, Key, Key) -> PathResult)
    requires CheckStart(roadsShown, points, graph, mapReady, findPath).Drive?
    ensures roadsShown && mapReady && |points| >= 2 && graph.nodes != []
    ensures var r := CheckStart(roadsShown, points, graph, mapReady, findPath);
      && |r.route| >= 1
      && (exists j :: FirstNearestAt(graph.nodes, points[0], j) && r.startKey == graph.nodes[j])
      && (exists j :: FirstNearestAt(graph.nodes, points[1], j) && r.endKey == graph.nodes[j])
      && findPath(graph, r.startKey, r.endKey).Path?
      && r.route == RouteCoords(findPath(graph, r.startKey, r.endKey).first, findPath(graph, r.startKey, r.endKey).rest)
  {
    NearestIsFirstNearest(graph.nodes, points[0]);
    NearestIsFirstNearest(graph.nodes, points[1]);
  }
}
