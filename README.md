# Road routing core of the VehicleMap component

This project models the routing logic of the `VehicleMap` React component
(`src/components/VehicleMap.js`). A user picks a start point and an end point on a road
network. A simulated vehicle then drives the shortest route between them, and the component
keeps a running total of the distance driven. The model covers four parts of the component:

- **Road-graph builder** (`RoadGraph`). When the roads GeoJSON has loaded, each road feature's
  first line is walked. Every pair of consecutive coordinates becomes an undirected edge
  between two node keys. A node key is the coordinate printed as
  `${x.toFixed(2)}|${y.toFixed(2)}`. The edge weight is the planar distance between the two
  raw coordinates. The builder is a nested loop that updates a node list and an adjacency map
  in place (`BuildRoadGraph`). It is proved equal to a fold over the segments (`Build`), and
  the graph's properties are proved about that fold.
- **Point snapper** (`Snapping`). `snapToGraph` scans the graph's keys in insertion order and
  keeps a running minimum with a strict `<`. `SnapToGraph` is that loop. `Nearest` is the same
  fold written as a function, used by the guards.
- **Start/end point selection and the `startDriving` guards** (`PointSelection`). These are
  pure functions: the next click list, and the ordered guards that end in a popup message, a
  silent return, or an animation.
- **Traversal animation** (`Animation`, `Component`). The class `Component.VehicleMap` holds
  the component's routing state: the roads layer flags, the graph, the clicked points, the
  popup, the distance counter and the vehicle marker. It also holds the interval closure of
  the latest animation: the step index, the pulse radius and its direction, the route, and the
  travelled trace. Each method is one event. `Tick` is one firing of the 100 ms interval, and
  `running` says whether that interval is still live.

`Scenario` works through a concrete case: two road segments at a right angle, two clicks
near the outer corners, a drive of exactly two moves, and then the end of the animation.

Abstractions:

- Coordinates of the EPSG:3857 frame are integer millimetres (`Geometry.Coord`).
- `toFixed(2)` prints a sign and then the magnitude rounded half up to hundredths. It is
  modelled as `Fixed(negative, hundredths)`, so a key is the pair of printed components.
  Decoding a key (`k.split('|').map(Number)`) is `Decode`.
- `Math.hypot` as the graph's edge weight (line 176) is a parameter `planar`. Nothing is assumed about it.
  The builder writes the same value in both directions, so the graph is symmetric anyway.
- The snapper's `Math.hypot` (line 305) is replaced by the integer squared distance (`SqDist`).
  In exact arithmetic this orders the keys as `Math.hypot` does.
- `getDistance(toLonLat(p), toLonLat(q))` is a parameter `geo`. Its results are of type
  `Length`, a non-negative `real`.
- `dijkstra.find_path` is a parameter `findPath`. It returns `NoPath` (the call throws) or a
  non-empty key sequence `Path(first, rest)`.
- The pulse radius is counted in half-pixels: 16 to 30 stands for 8 px to 15 px.

Behaviour of the code worth noting:

- The builder does not exclude self-loops. Two consecutive coordinates with the same key
  store an edge from that key to itself.
- An empty graph does not trigger a message. `!roadGraph` never holds, because `{}` is truthy.
  Both snaps then return `null`, and `startDriving` returns silently.
- Loading roads in which no feature has a coordinate leaves the previous graph in place: fitting
  the view to their empty extent (line 166) throws before the builder runs.
- A failed guard in `startDriving` leaves an animation that is already running untouched.
  Only a route that is found replaces the running animation.
- Keys do not merge every pair of nearby points. Two points merge only when they round to the
  same centimetre on both axes (`SameBucketSameFixed`). Points in different buckets get
  different keys, however close they are. `toFixed` also prints small negative values as
  "-0.00", so points a few millimetres either side of zero get different keys, even though
  their keys decode to the same point (`NegativeZeroSplits`).

## Model

| member | source | states |
|---|---|---|
| Geometry.ToFixed | src/components/VehicleMap.js:174-175 | The printed component keeps the sign of the value and reads back within half a centimetre of it |
| Geometry.KeyOf | src/components/VehicleMap.js:174-175 | Both components of a node key decode to within 5 mm of the point they were made from |
| Geometry.Decode | src/components/VehicleMap.js:304 | A key reads back as a point on whole centimetres; by `KeyOf`'s contract that point is within 5 mm of every point with that key, and `KeyRoundTrip` shows that keying the decoded point gives the key back |
| Geometry.SqDist | src/components/VehicleMap.js:305 | The snapper's distance measure is zero exactly when the two points coincide |
| Geometry.FixedRoundTrip | src/components/VehicleMap.js:304 | Reading a printed component back and printing it again gives the same text, for every component except "-0.00" (both directions) |
| Geometry.KeyRoundTrip | src/components/VehicleMap.js:321 | Decoding a key and keying the point again gives back the same key, unless a component is "-0.00" |
| Geometry.SameFixedIsNear | src/components/VehicleMap.js:174-175 | Two values with the same printed component are less than one centimetre apart |
| Geometry.SameBucketSameFixed | src/components/VehicleMap.js:174-175 | Two values with the same sign that round to the same hundredth print the same component |
| Geometry.NegativeZeroSplits | src/components/VehicleMap.js:174-175 | Points at -1 mm and +1 mm get different keys ("-0.00" and "0.00") that decode to the same point |
| RoadGraph.Pairs | src/components/VehicleMap.js:172-173 | A line yields its consecutive coordinate pairs in order, one fewer than its points; a line with fewer than two points yields none |
| RoadGraph.Segments | src/components/VehicleMap.js:170-173 | No segment is visited exactly when every feature's first line has fewer than two coordinates (`AllLinesShortEach`); `SegmentsOfFeatures` pins the visited segments |
| RoadGraph.AllLinesShortEach | src/components/VehicleMap.js:171-172 | "No feature's first line yields a segment" holds exactly when each first line has fewer than two coordinates |
| RoadGraph.AddNode | src/components/VehicleMap.js:177-178 | The key becomes a node; a missing key is appended last in key order with no neighbours, and no other key is added |
| RoadGraph.AddSegment | src/components/VehicleMap.js:176-180 | The node set grows by exactly the two end keys, and both directions of the edge carry the segment's planar distance |
| RoadGraph.Build | src/components/VehicleMap.js:169-182 | The graph has no keys exactly when no segment was processed; `BuildNodes` and `BuildEdges` give its nodes and edges |
| RoadGraph.BuildRoadGraph | src/components/VehicleMap.js:169-182 | The nested in-place loop fails exactly when some feature has no first line; otherwise it yields the fold of `AddSegment` over all segments, which is well formed and symmetric |
| RoadGraph.InsertLine | src/components/VehicleMap.js:172-181 | The inner loop over one line equals the fold extended by that line's consecutive pairs |
| RoadGraph.InsertSegment | src/components/VehicleMap.js:174-180 | One pass of the inner loop body: the in-place insert of both keys and both edge directions is exactly one `AddSegment` on the graph |
| RoadGraph.AddSegmentEffect | src/components/VehicleMap.js:177-180 | One segment adds exactly the keys of its two ends as nodes, adds exactly the edge between them in both directions with the segment's weight, and changes no other weight |
| RoadGraph.AddSegmentNodes | src/components/VehicleMap.js:177-178 | Keys already present keep their position in key order. A new key of the first end is appended, then a new key of the second end; a segment whose ends share a key appends it once |
| RoadGraph.BuildNodeOrder | src/components/VehicleMap.js:170-178 | The key order of the built graph is the segments' end keys a0, b0, a1, b1, … with each key kept at its first occurrence |
| RoadGraph.AddNodeWellFormed | src/components/VehicleMap.js:177-178 | Adding a missing key keeps the key list free of duplicates and equal to the node set |
| RoadGraph.AddSegmentWellFormed | src/components/VehicleMap.js:177-180 | A segment keeps the graph well formed: distinct keys in key order, and every neighbour is a node |
| RoadGraph.BuildWellFormed | src/components/VehicleMap.js:169-182 | The built graph lists every node once, its key list is exactly its node set, and every neighbour is a node |
| RoadGraph.BuildSymmetric | src/components/VehicleMap.js:179-180 | Every stored edge A→B has a reverse edge B→A with the same weight |
| RoadGraph.BuildNodes | src/components/VehicleMap.js:170-178 | A key is a node exactly when it is the key of an end of some processed segment |
| RoadGraph.BuildEdges | src/components/VehicleMap.js:170-180 | A→B is an edge exactly when some processed segment joins the keys A and B, in either order |
| RoadGraph.BuildLastWriteWins | src/components/VehicleMap.js:176-180 | The weight of an edge is the planar distance of the last segment joining its keys; weights are overwritten, never summed |
| RoadGraph.BuildNodesExtend | src/components/VehicleMap.js:177-178 | Processing more segments only appends keys, so each node keeps its iteration position from the moment it is first inserted |
| RoadGraph.ShortLineAddsNothing | src/components/VehicleMap.js:171-172 | A feature whose first line has fewer than two coordinates leaves the graph unchanged |
| RoadGraph.SegmentIsPair | src/components/VehicleMap.js:170-173 | Every visited segment is two consecutive coordinates of some feature's first line |
| RoadGraph.PairIsSegment | src/components/VehicleMap.js:170-173 | Every two consecutive coordinates of a feature's first line are visited as a segment |
| RoadGraph.SegmentsOfFeatures | src/components/VehicleMap.js:170-173 | The visited segments are exactly the consecutive coordinate pairs of the features' first lines |
| RoadGraph.RoadGraphEdges | src/components/VehicleMap.js:170-180 | In the built road graph, A→B is an edge exactly when two consecutive coordinates of some feature's first line have the keys A and B |
| Snapping.Nearest | src/components/VehicleMap.js:301-309 | The scan's result is null exactly when there are no keys, and otherwise one of the keys; `NearestIsFirstNearest` says which |
| Snapping.NearestIsFirstNearest | src/components/VehicleMap.js:301-309 | The scan returns null exactly when there are no keys; otherwise it returns the earliest key, in key order, whose decoded point is nearest to the click |
| Snapping.FirstNearestUnique | src/components/VehicleMap.js:306 | At most one position is the first nearest, so the strict `<` fixes the winner on ties |
| Snapping.SnapToGraph | src/components/VehicleMap.js:301-309 | The loop returns null exactly for an empty graph; otherwise it returns a graph key that is nearest to the click and strictly nearer than every earlier key |
| PointSelection.NextClickPoints | src/components/VehicleMap.js:266-277 | After a click the list has one or two points and ends with the click; it has two exactly when there was one before, and then the first point is kept |
| PointSelection.HandleClick | src/components/VehicleMap.js:263-277 | A click is ignored exactly when adding points is off, the roads layer is hidden or there is no map; an accepted click cancels the animation exactly when a full pair is replaced |
| PointSelection.ClicksPairUp | src/components/VehicleMap.js:266-279 | From no points, an odd number of clicks leaves only the last click selected, and an even number leaves the last two as start and end |
| PointSelection.RouteCoords | src/components/VehicleMap.js:321 | The route has one coordinate per path key: the decoded keys, in order |
| PointSelection.CheckStart | src/components/VehicleMap.js:298-321 | Every advisory is one of the three popup messages, and a drive records two graph keys as its snapped start and end. The path finder returns a path for exactly those keys, and the drive's route is that path's keys decoded in order, so it has at least one coordinate; `StartOutcomes` gives each outcome's exact condition |
| PointSelection.StartOutcomes | src/components/VehicleMap.js:298-319 | The guards in order, each an if-and-only-if: hidden roads give "Turn on roads layer first!"; fewer than two points give "Select start and end points!"; an empty graph returns silently; a path-finder failure gives "No path found along roads!" |
| PointSelection.DriveSnapsBothPoints | src/components/VehicleMap.js:311-321 | An animation starts only with the roads shown, two points and a non-empty graph; the path finder returns a path between the first nearest keys of the two points, and the animated route is that path's keys decoded in order |
| Animation.PulseStep | src/components/VehicleMap.js:363-365 | One pulse step changes the radius by exactly half a pixel; it leaves the radius shrinking at 15 px or above and growing at 8 px or below |
| Animation.PulseAfter | src/components/VehicleMap.js:338-365 | After any number of moving ticks the radius lies between 8 px and 15 px, shrinking at 15 px and growing at 8 px |
| Animation.PulseIsTriangleWave | src/components/VehicleMap.js:338-365 | After n moving ticks the radius is 8 px plus a triangle wave of period 28 ticks: it grows for 14 ticks to 15 px, then shrinks for 14 ticks back to 8 px |
| Animation.PulseInRange | src/components/VehicleMap.js:338-365 | The radius always stays between 8 px and 15 px |
| Animation.Travelled | src/components/VehicleMap.js:352-356 | The distance added by the first k moves is never negative |
| Animation.TravelledMonotone | src/components/VehicleMap.js:352-356 | The distance summed over the first k segments never decreases as k grows |
| Animation.TraceUpTo | src/components/VehicleMap.js:375 | After `step` moves, the travel line is the route's coordinates 0 to `step`, inclusive |
| Component.VehicleMap.constructor | src/components/VehicleMap.js:25-52 | The mounted component has an empty graph `{}`, no points, no roads layer, a zero distance counter and no vehicle marker |
| Component.VehicleMap.LoadRoads | src/components/VehicleMap.js:145-183 | The roads layer is added and shown. The graph becomes the built road graph. It keeps its previous value when the view cannot be fitted to an empty extent (no feature has a coordinate) or when the builder throws |
| Component.VehicleMap.BuildFrom | src/components/VehicleMap.js:169-182 | The graph becomes the built road graph when every feature has a first line, and otherwise keeps its previous value because the builder throws; only the graph changes |
| Component.VehicleMap.ToggleRoads | src/components/VehicleMap.js:253-256 | The roads layer's visibility flips once the layer exists, and nothing happens before that |
| Component.VehicleMap.ToggleAddingPoints | src/components/VehicleMap.js:503 | The add-points mode flips |
| Component.VehicleMap.HandleMapClick | src/components/VehicleMap.js:262-279 | The point list follows `HandleClick`. Replacing a full pair stops the animation and moves an existing marker to the click. Nothing else changes |
| Component.VehicleMap.StartDriving | src/components/VehicleMap.js:297-380 | The outcome is the guards' outcome. The return is silent exactly when the roads are shown, two points are selected and the graph object has no keys. Advisories set the popup. Failed guards leave the running animation as it was. A found route starts a new animation at its first coordinate. The distance counter is never reset |
| Component.VehicleMap.BeginAnimation | src/components/VehicleMap.js:322-339 | The marker is put on the route's first coordinate, and the new animation starts at step 0 with an 8 px growing pulse and a one-point trace |
| Component.VehicleMap.Advance | src/components/VehicleMap.js:347-376 | One move: the step index goes up by one, the vehicle and trace reach the next coordinate, the segment's length is added and the pulse takes one step, keeping the class invariant |
| Component.VehicleMap.Tick | src/components/VehicleMap.js:341-378 | With the roads shown and a coordinate left, the tick moves the vehicle to the next coordinate and adds that segment's length to the distance. It also takes one pulse step, extends the trace and increments the step index by 1. Otherwise it clears the interval and changes nothing else. The distance is always the start value plus the first `step` segment lengths, and the step never passes the last index |

## Left out

- Dijkstra itself. `dijkstra.find_path` comes from the `dijkstrajs` library, whose source is not part of this model. It is the parameter `findPath`, and nothing is assumed about the path it returns, including which of several equally short paths it picks. A found path is modelled as non-empty.
- Floating point. `toFixed` is modelled on exact millimetre values, so ties that binary floating point rounds the other way are not captured. `Math.hypot` at line 176 (`planar`) and `getDistance` of `toLonLat` (`geo`) are parameters. Coordinates finer than a millimetre are not represented. JavaScript's negative zero is not represented. `SqDist` compares exact distances. Floating-point `Math.hypot` on the decoded doubles can round two different distances to the same value. The strict `<` at line 306 then keeps the earlier key, where the model picks the strictly nearer later one.
- Geometries other than MultiLineString. The model assumes every road feature is a MultiLineString. On a LineString the builder would read a number as a coordinate and throw. A Point would contribute nothing. A null geometry would throw.
- Network and reprojection. The GeoJSON `fetch` calls (lines 129-133, 188-244) and the EPSG:32630 to EPSG:3857 transforms (lines 135-143, 228-236) are not modelled. `LoadRoads` receives features that are already reprojected. A failed fetch is not modelled.
- Rendering and UI. Out of scope: OpenLayers layers, styles and features, `getBaseLayer` (lines 71-86), the point-layer redraw (lines 281-290), the cursor handler (lines 103-112), the camera move of the view fit (line 166; only its failure on an empty extent is modelled), the zoom-dependent road width (lines 149-150), the distance display (line 560), the popup's close button (line 591) and all JSX. Each `startDriving` that finds a route adds a new travel layer (lines 322-324 run after every guard), and earlier traces stay drawn; only the latest trace is modelled. The other boundary layers are not modelled.
- Basemap changes (lines 116-248). They rebuild the map, its layers and the graph. Old closures keep their old layers. The model treats the map as created once (`mapReady` is passed as `true`), and `LoadRoads` may be called again.
- The header emoji animation (lines 57-68). It is cosmetic.
- Timer mechanics. `setInterval` and `clearInterval` are not modelled; one call of `Tick` stands for one firing. `Tick` requires `running`, because a cleared interval never fires again.
- React rendering. State updates, batching and closures captured at render time are treated as immediate reads and writes of the model's fields.
- `src/components/MapComponent.js`. It only mounts a default OSM map.
