/**
 * The road graph built when the roads GeoJSON has loaded (VehicleMap.js lines 168-183).
 *
 * Every feature's geometry is a MultiLineString; only its first line is walked. Each pair of
 * consecutive coordinates contributes an undirected edge between their keys, weighted by the
 * planar distance of the two raw coordinates. The graph object keeps its keys in insertion
 * order (keys of the form "x|y" are never array indices), which is the order in which the
 * point snapper later visits them; `nodes` records that order.
 */
module RoadGraph {
  import opened Wrappers
  import opened Geometry

  /** A road feature: the lines of its MultiLineString geometry. */
  datatype Feature = Feature(lines: seq<seq<Coord>>)

  /** Two consecutive coordinates of a line. */
  datatype Segment = Segment(a: Coord, b: Coord)

  /** Node keys in insertion order, and for each key the weights of its neighbours. */
  datatype Graph = Graph(nodes: seq<Key>, adj: map<Key, map<Key, real>>)

  const EmptyGraph: Graph := Graph([], map[])

  /** The consecutive coordinate pairs of one line; a line of fewer than two points has none. */
  function Pairs(line: seq<Coord>): (r: seq<Segment>)
    ensures |r| == if |line| < 2 then 0 else |line| - 1
    ensures forall i :: 0 <= i < |r| ==> r[i] == Segment(line[i], line[i + 1])
  {
    if |line| < 2 then []
    else Pairs(line[..|line| - 1]) + [Segment(line[|line| - 2], line[|line| - 1])]
  }

  /** Every feature has a first line; `getCoordinates()[0].length` throws on one that has none. */
  ghost predicate AllHaveLines(fs: seq<Feature>)
  {
    forall j :: 0 <= j < |fs| ==> fs[j].lines != []
  }

  /** Every feature's first line has fewer than two coordinates, so no segment is visited. */
  ghost predicate AllLinesShort(fs: seq<Feature>)
    requires AllHaveLines(fs)
  {
    fs == [] || (AllLinesShort(fs[..|fs| - 1]) && |fs[|fs| - 1].lines[0]| < 2)
  }

  lemma {:induction false} AllLinesShortEach(fs: seq<Feature>)
    requires AllHaveLines(fs)
    ensures AllLinesShort(fs) <==> forall j :: 0 <= j < |fs| ==> |fs[j].lines[0]| < 2
  {
    if fs != [] {
      var init := fs[..|fs| - 1];
      AllLinesShortEach(init);
      assert forall j :: 0 <= j < |init| ==> init[j] == fs[j];
    }
  }

  /** The segments the builder visits, feature by feature, in order. */
  function Segments(fs: seq<Feature>): (r: seq<Segment>)
    requires AllHaveLines(fs)
    ensures r == [] <==> AllLinesShort(fs)
  {
    if fs == [] then [] else Segments(fs[..|fs| - 1]) + Pairs(fs[|fs| - 1].lines[0])
  }

  /** `if (!graph[k]) graph[k] = {}`: a new key gets no neighbours and goes last in key order. */
  function AddNode(g: Graph, k: Key): (r: Graph)
    ensures k in r.adj
    ensures r.adj.Keys == g.adj.Keys + {k}
    ensures k !in g.adj ==> r.nodes == g.nodes + [k] && r.adj[k] == map[]
  {
    if k in g.adj then g else Graph(g.nodes + [k], g.adj[k := map[]])
  }

  /** One iteration of the inner loop (lines 173-180): both directions get the same weight. */
  function AddSegment(g: Graph, s: Segment, planar: (Coord, Coord) -> real): (r: Graph)
    ensures r.adj.Keys == g.adj.Keys + {KeyOf(s.a), KeyOf(s.b)}
    ensures KeyOf(s.b) in r.adj[KeyOf(s.a)] && KeyOf(s.a) in r.adj[KeyOf(s.b)]
    ensures r.adj[KeyOf(s.a)][KeyOf(s.b)] == r.adj[KeyOf(s.b)][KeyOf(s.a)] == planar(s.a, s.b)
  {
    var ka := KeyOf(s.a);
    var kb := KeyOf(s.b);
    var d := planar(s.a, s.b);
    var g2 := AddNode(AddNode(g, ka), kb);
    var adj3 := g2.adj[ka := g2.adj[ka][kb := d]];
    Graph(g2.nodes, adj3[kb := adj3[kb][ka := d]])
  }

  /** The graph after the given segments have been processed in order, starting from `{}`. */
  function Build(segs: seq<Segment>, planar: (Coord, Coord) -> real): (r: Graph)
    ensures r.adj == map[] <==> segs == []
  {
    if segs == [] then EmptyGraph
    else AddSegment(Build(segs[..|segs| - 1], planar), segs[|segs| - 1], planar)
  }

  ghost predicate HasEdge(g: Graph, a: Key, b: Key)
  {
    a in g.adj && b in g.adj[a]
  }

  /** The segment's ends have keys a and b, in either order. */
  predicate Joins(s: Segment, a: Key, b: Key)
  {
    (KeyOf(s.a) == a && KeyOf(s.b) == b) || (KeyOf(s.a) == b && KeyOf(s.b) == a)
  }

  /** One of the segment's ends has key k. */
  predicate Touches(s: Segment, k: Key)
  {
    KeyOf(s.a) == k || KeyOf(s.b) == k
  }

  /** Keys are listed once each, the listed keys are the nodes, and every neighbour is a node. */
  ghost predicate WellFormed(g: Graph)
  {
    && (forall i, j :: 0 <= i < j < |g.nodes| ==> g.nodes[i] != g.nodes[j])
    && (forall k :: k in g.adj <==> k in g.nodes)
    && NeighboursAreNodes(g.adj)
  }

  /** Every stored edge is stored in both directions with the same weight. */
  ghost predicate Symmetric(g: Graph)
  {
    forall a, b :: a in g.adj && b in g.adj[a] ==> b in g.adj && a in g.adj[b] && g.adj[b][a] == g.adj[a][b]
  }

  /**
   * The builder loop (lines 169-182), over in-place updates of the node list and the
   * adjacency map. It fails, leaving no graph, when a feature has no first line.
   */
  method BuildRoadGraph(features: seq<Feature>, planar: (Coord, Coord) -> real) returns (r: Option<Graph>)
    ensures r.None? <==> exists j :: 0 <= j < |features| && features[j].lines == []
    ensures r.Some? ==> r.value == Build(Segments(features), planar)
    ensures r.Some? ==> WellFormed(r.value) && Symmetric(r.value)
  {
    var nodes: seq<Key> := [];
    var adj: map<Key, map<Key, real>> := map[];
    var fi := 0;
    while fi < |features|
      invariant 0 <= fi <= |features|
      invariant AllHaveLines(features[..fi])
      invariant Graph(nodes, adj) == Build(Segments(features[..fi]), planar)
    {
      if features[fi].lines == [] {
        return None;
      }
      nodes, adj := InsertLine(nodes, adj, features[fi].lines[0], Segments(features[..fi]), planar);
      SegmentsStep(features, fi);
      fi := fi + 1;
    }
    assert features[..fi] == features;
    BuiltGraphWellFormed(Segments(features), planar);
    return Some(Graph(nodes, adj));
  }

  lemma BuiltGraphWellFormed(segs: seq<Segment>, planar: (Coord, Coord) -> real)
    ensures WellFormed(Build(segs, planar)) && Symmetric(Build(segs, planar))
  {
    BuildWellFormed(segs, planar);
    BuildSymmetric(segs, planar);
  }

  /** The inner loop (lines 172-181): every consecutive pair of one line, in order. */
  method InsertLine(nodes: seq<Key>, adj: map<Key, map<Key, real>>, coords: seq<Coord>,
                    ghost done: seq<Segment>, planar: (Coord, Coord) -> real)
    returns (nodes': seq<Key>, adj': map<Key, map<Key, real>>)
    requires Graph(nodes, adj) == Build(done, planar)
    ensures Graph(nodes', adj') == Build(done + Pairs(coords), planar)
  {
    nodes', adj' := nodes, adj;
    var i := 0;
    assert done + Pairs(coords)[..0] == done;
    while i + 1 < |coords|
      invariant 0 <= i <= |Pairs(coords)|
      invariant Graph(nodes', adj') == Build(done + Pairs(coords)[..i], planar)
    {
      nodes', adj' := InsertSegment(nodes', adj', coords[i], coords[i + 1], planar);
      ExtendByPair(done, coords, i, planar);
      i := i + 1;
    }
    assert Pairs(coords)[..i] == Pairs(coords);
  }

  /** The body of the inner loop (lines 174-180): insert both keys, then both directions. */
  method InsertSegment(nodes: seq<Key>, adj: map<Key, map<Key, real>>, a: Coord, b: Coord,
                       planar: (Coord, Coord) -> real)
    returns (nodes': seq<Key>, adj': map<Key, map<Key, real>>)
    ensures Graph(nodes', adj') == AddSegment(Graph(nodes, adj), Segment(a, b), planar)
  {
    var keyA, keyB := KeyOf(a), KeyOf(b);
    var distance := planar(a, b);
    nodes', adj' := nodes, adj;
    if keyA !in adj' {
      nodes', adj' := nodes' + [keyA], adj'[keyA := map[]];
    }
    if keyB !in adj' {
      nodes', adj' := nodes' + [keyB], adj'[keyB := map[]];
    }
    adj' := adj'[keyA := adj'[keyA][keyB := distance]];
    adj' := adj'[keyB := adj'[keyB][keyA := distance]];
  }

  /** Processing one more segment of a line is one more `AddSegment`. */
  lemma ExtendByPair(done: seq<Segment>, line: seq<Coord>, i: nat, planar: (Coord, Coord) -> real)
    requires i + 1 < |line|
    ensures Build(done + Pairs(line)[..i + 1], planar)
         == AddSegment(Build(done + Pairs(line)[..i], planar), Segment(line[i], line[i + 1]), planar)
  {
    var next := done + Pairs(line)[..i + 1];
    assert next[..|next| - 1] == done + Pairs(line)[..i];
  }

  /** Finishing feature fi appends the pairs of its first line to the visited segments. */
  lemma SegmentsStep(fs: seq<Feature>, fi: nat)
    requires fi < |fs| && AllHaveLines(fs[..fi]) && fs[fi].lines != []
    ensures AllHaveLines(fs[..fi + 1])
    ensures Segments(fs[..fi + 1]) == Segments(fs[..fi]) + Pairs(fs[fi].lines[0])
  {
    assert fs[..fi + 1][..fi] == fs[..fi];
  }

  /** What one segment does to the node set and to one adjacency entry. */
  lemma AddSegmentEffect(g: Graph, s: Segment, planar: (Coord, Coord) -> real, a: Key, b: Key)
    ensures a in AddSegment(g, s, planar).adj <==> a in g.adj || Touches(s, a)
    ensures HasEdge(AddSegment(g, s, planar), a, b) <==> HasEdge(g, a, b) || Joins(s, a, b)
    ensures Joins(s, a, b) ==> AddSegment(g, s, planar).adj[a][b] == planar(s.a, s.b)
    ensures !Joins(s, a, b) && HasEdge(g, a, b) ==> AddSegment(g, s, planar).adj[a][b] == g.adj[a][b]
  {
  }

  /** Keys already present keep their place in key order; new keys are appended. */
  /** A new key of the first end is appended before a new key of the second (lines 177-178). */
  lemma AddSegmentNodes(g: Graph, s: Segment, planar: (Coord, Coord) -> real)
    ensures g.nodes <= AddSegment(g, s, planar).nodes
    ensures AddSegment(g, s, planar).nodes
         == g.nodes + (if KeyOf(s.a) in g.adj then [] else [KeyOf(s.a)])
                    + (if KeyOf(s.b) in g.adj || KeyOf(s.b) == KeyOf(s.a) then [] else [KeyOf(s.b)])
  {
  }

  /** The keys of the segments' ends in visiting order: a0, b0, a1, b1, ... */
  function EndKeys(segs: seq<Segment>): (r: seq<Key>)
    ensures |r| == 2 * |segs|
  {
    if segs == [] then []
    else EndKeys(segs[..|segs| - 1]) + [KeyOf(segs[|segs| - 1].a), KeyOf(segs[|segs| - 1].b)]
  }

  /** The keys of ks, each once, in the order in which they first occur. */
  function FirstOccurrences(ks: seq<Key>): (r: seq<Key>)
    ensures forall k :: k in r <==> k in ks
  {
    if ks == [] then []
    else
      var seen := FirstOccurrences(ks[..|ks| - 1]);
      if ks[|ks| - 1] in seen then seen else seen + [ks[|ks| - 1]]
  }

  /**
   * The key order the snapper scans: every end key of the processed segments, in the order in
   * which it first occurs among a0, b0, a1, b1, ...
   */
  lemma {:induction false} BuildNodeOrder(segs: seq<Segment>, planar: (Coord, Coord) -> real)
    ensures Build(segs, planar).nodes == FirstOccurrences(EndKeys(segs))
  {
    if segs != [] {
      var init := segs[..|segs| - 1];
      var s := segs[|segs| - 1];
      var g := Build(init, planar);
      BuildNodeOrder(init, planar);
      BuildWellFormed(init, planar);
      AddSegmentNodes(g, s, planar);
      var ends := EndKeys(init);
      var withA := ends + [KeyOf(s.a)];
      assert EndKeys(segs) == withA + [KeyOf(s.b)];
      assert forall k :: k in g.adj <==> k in ends;
      FirstOccurrencesSnoc(ends, KeyOf(s.a));
      FirstOccurrencesSnoc(withA, KeyOf(s.b));
    }
  }

  lemma FirstOccurrencesSnoc(ks: seq<Key>, k: Key)
    ensures FirstOccurrences(ks + [k]) == FirstOccurrences(ks) + (if k in ks then [] else [k])
  {
    assert (ks + [k])[..|ks|] == ks;
  }

  lemma AddNodeWellFormed(g: Graph, k: Key)
    requires WellFormed(g)
    ensures WellFormed(AddNode(g, k))
  {
    if k !in g.adj {
      var r := AddNode(g, k);
      forall i, j | 0 <= i < j < |r.nodes| ensures r.nodes[i] != r.nodes[j] {
        if j == |g.nodes| { assert r.nodes[i] == g.nodes[i]; }
      }
    }
  }

  /** Every neighbour listed in an adjacency map is itself a key of the map. */
  ghost predicate NeighboursAreNodes(adj: map<Key, map<Key, real>>)
  {
    forall a, b :: a in adj && b in adj[a] ==> b in adj
  }

  /** Writing one weight between two present keys keeps every neighbour a node. */
  lemma SetWeightKeepsNeighbours(adj: map<Key, map<Key, real>>, x: Key, y: Key, d: real)
    requires x in adj && y in adj && NeighboursAreNodes(adj)
    ensures adj[x := adj[x][y := d]].Keys == adj.Keys
    ensures NeighboursAreNodes(adj[x := adj[x][y := d]])
  {
    var adj' := adj[x := adj[x][y := d]];
    forall a, b | a in adj' && b in adj'[a] ensures b in adj' {
      if a != x { assert adj'[a] == adj[a]; }
    }
  }

  lemma AddSegmentWellFormed(g: Graph, s: Segment, planar: (Coord, Coord) -> real)
    requires WellFormed(g)
    ensures WellFormed(AddSegment(g, s, planar))
  {
    var ka, kb := KeyOf(s.a), KeyOf(s.b);
    var d := planar(s.a, s.b);
    AddNodeWellFormed(g, ka);
    var g1 := AddNode(g, ka);
    AddNodeWellFormed(g1, kb);
    var g2 := AddNode(g1, kb);
    assert NeighboursAreNodes(g2.adj);
    SetWeightKeepsNeighbours(g2.adj, ka, kb, d);
    var adj3 := g2.adj[ka := g2.adj[ka][kb := d]];
    SetWeightKeepsNeighbours(adj3, kb, ka, d);
    assert AddSegment(g, s, planar) == Graph(g2.nodes, adj3[kb := adj3[kb][ka := d]]);
  }

  lemma {:induction false} BuildWellFormed(segs: seq<Segment>, planar: (Coord, Coord) -> real)
    ensures WellFormed(Build(segs, planar))
  {
    if segs != [] {
      BuildWellFormed(segs[..|segs| - 1], planar);
      AddSegmentWellFormed(Build(segs[..|segs| - 1], planar), segs[|segs| - 1], planar);
    }
  }

  /** Property 1 of the builder: every stored edge has the same weight in both directions. */
  lemma {:induction false} BuildSymmetric(segs: seq<Segment>, planar: (Coord, Coord) -> real)
    ensures Symmetric(Build(segs, planar))
  {
    if segs != [] {
      var g := Build(segs[..|segs| - 1], planar);
      BuildSymmetric(segs[..|segs| - 1], planar);
      var s := segs[|segs| - 1];
      var h := AddSegment(g, s, planar);
      forall a, b | a in h.adj && b in h.adj[a]
        ensures b in h.adj && a in h.adj[b] && h.adj[b][a] == h.adj[a][b]
      {
        AddSegmentEffect(g, s, planar, a, b);
        AddSegmentEffect(g, s, planar, b, a);
      }
    }
  }

  /** The nodes are exactly the keys of the ends of the processed segments. */
  lemma {:induction false} BuildNodes(segs: seq<Segment>, planar: (Coord, Coord) -> real, k: Key)
    ensures k in Build(segs, planar).adj <==> exists j :: 0 <= j < |segs| && Touches(segs[j], k)
  {
    if segs != [] {
      var init := segs[..|segs| - 1];
      BuildNodes(init, planar, k);
      AddSegmentEffect(Build(init, planar), segs[|segs| - 1], planar, k, k);
      if exists j :: 0 <= j < |segs| && Touches(segs[j], k) {
        var j :| 0 <= j < |segs| && Touches(segs[j], k);
        if j < |segs| - 1 { assert init[j] == segs[j]; }
      }
    }
  }

  /** An edge a-b is stored exactly when some processed segment joins the keys a and b. */
  lemma {:induction false} BuildEdges(segs: seq<Segment>, planar: (Coord, Coord) -> real, a: Key, b: Key)
    ensures HasEdge(Build(segs, planar), a, b) <==> exists j :: 0 <= j < |segs| && Joins(segs[j], a, b)
  {
    if segs != [] {
      var init := segs[..|segs| - 1];
      BuildEdges(init, planar, a, b);
      AddSegmentEffect(Build(init, planar), segs[|segs| - 1], planar, a, b);
      if exists j :: 0 <= j < |segs| && Joins(segs[j], a, b) {
        var j :| 0 <= j < |segs| && Joins(segs[j], a, b);
        if j < |segs| - 1 { assert init[j] == segs[j]; }
      }
    }
  }

  /**
   * Last write wins: the weight of an edge is the planar length of the last segment joining
   * its two keys, never a sum of the segments that join them.
   */
  lemma {:induction false} BuildLastWriteWins(segs: seq<Segment>, planar: (Coord, Coord) -> real, j: nat, a: Key, b: Key)
    requires j < |segs| && Joins(segs[j], a, b)
    requires forall l :: j < l < |segs| ==> !Joins(segs[l], a, b)
    ensures HasEdge(Build(segs, planar), a, b)
    ensures Build(segs, planar).adj[a][b] == planar(segs[j].a, segs[j].b)
  {
    var init := segs[..|segs| - 1];
    AddSegmentEffect(Build(init, planar), segs[|segs| - 1], planar, a, b);
    if j < |segs| - 1 {
      BuildLastWriteWins(init, planar, j, a, b);
    }
  }

  /** Key order is stable: processing more segments only appends keys. */
  lemma {:induction false} BuildNodesExtend(segs: seq<Segment>, n: nat, planar: (Coord, Coord) -> real)
    requires n <= |segs|
    ensures Build(segs[..n], planar).nodes <= Build(segs, planar).nodes
  {
    if n < |segs| {
      var init := segs[..|segs| - 1];
      assert init[..n] == segs[..n];
      BuildNodesExtend(init, n, planar);
      AddSegmentNodes(Build(init, planar), segs[|segs| - 1], planar);
    } else {
      assert segs[..n] == segs;
    }
  }

  /** A feature whose first line has fewer than two coordinates adds nothing to the graph. */
  lemma ShortLineAddsNothing(fs: seq<Feature>, f: Feature, planar: (Coord, Coord) -> real)
    requires AllHaveLines(fs) && f.lines != [] && |f.lines[0]| < 2
    ensures AllHaveLines(fs + [f])
    ensures Build(Segments(fs + [f]), planar) == Build(Segments(fs), planar)
  {
    assert (fs + [f])[..|fs|] == fs;
    assert Pairs(f.lines[0]) == [];
    assert Segments(fs + [f]) == Segments(fs) + [];
    assert Segments(fs) + [] == Segments(fs);
  }

  /** Two consecutive coordinates of the first line of feature j, from position i on. */
  ghost predicate PairAt(fs: seq<Feature>, j: int, i: int, s: Segment)
    requires AllHaveLines(fs)
  {
    0 <= j < |fs| && 0 <= i && i + 1 < |fs[j].lines[0]|
    && fs[j].lines[0][i] == s.a && fs[j].lines[0][i + 1] == s.b
  }

  lemma SegmentsSplit(fs: seq<Feature>)
    requires AllHaveLines(fs) && fs != []
    ensures AllHaveLines(fs[..|fs| - 1])
    ensures Segments(fs) == Segments(fs[..|fs| - 1]) + Pairs(fs[|fs| - 1].lines[0])
  {
  }

  lemma {:induction false} SegmentIsPair(fs: seq<Feature>, s: Segment)
    requires AllHaveLines(fs) && s in Segments(fs)
    ensures exists j, i :: PairAt(fs, j, i, s)
  {
    SegmentsSplit(fs);
    var init := fs[..|fs| - 1];
    var last := fs[|fs| - 1].lines[0];
    if s in Segments(init) {
      SegmentIsPair(init, s);
      var j, i :| PairAt(init, j, i, s);
      assert fs[j] == init[j];
      assert PairAt(fs, j, i, s);
    } else {
      var i :| 0 <= i < |Pairs(last)| && Pairs(last)[i] == s;
      assert Pairs(last)[i] == Segment(last[i], last[i + 1]);
      assert PairAt(fs, |fs| - 1, i, s);
    }
  }

  lemma {:induction false} PairIsSegment(fs: seq<Feature>, j: int, i: int, s: Segment)
    requires AllHaveLines(fs) && PairAt(fs, j, i, s)
    ensures s in Segments(fs)
  {
    SegmentsSplit(fs);
    var init := fs[..|fs| - 1];
    if j < |fs| - 1 {
      assert init[j] == fs[j];
      assert PairAt(init, j, i, s);
      PairIsSegment(init, j, i, s);
    } else {
      assert Pairs(fs[j].lines[0])[i] == s;
    }
  }

  /** The segments are exactly the consecutive coordinate pairs of the features' first lines. */
  lemma SegmentsOfFeatures(fs: seq<Feature>, s: Segment)
    requires AllHaveLines(fs)
    ensures s in Segments(fs) <==> exists j, i :: PairAt(fs, j, i, s)
  {
    if s in Segments(fs) {
      SegmentIsPair(fs, s);
    }
    if exists j, i :: PairAt(fs, j, i, s) {
      var j, i :| PairAt(fs, j, i, s);
      PairIsSegment(fs, j, i, s);
    }
  }

  /**
   * Edges of the built road graph, in terms of the features: a-b is an edge exactly when two
   * consecutive coordinates of some feature's first line have the keys a and b.
   */
  lemma RoadGraphEdges(fs: seq<Feature>, planar: (Coord, Coord) -> real, a: Key, b: Key)
    requires AllHaveLines(fs)
    ensures HasEdge(Build(Segments(fs), planar), a, b) <==>
      exists j, i, s :: PairAt(fs, j, i, s) && Joins(s, a, b)
  {
    var segs := Segments(fs);
    BuildEdges(segs, planar, a, b);
    if exists l :: 0 <= l < |segs| && Joins(segs[l], a, b) {
      var l :| 0 <= l < |segs| && Joins(segs[l], a, b);
      SegmentsOfFeatures(fs, segs[l]);
      var j, i :| PairAt(fs, j, i, segs[l]);
    }
    if exists j, i, s :: PairAt(fs, j, i, s) && Joins(s, a, b) {
      var j, i, s :| PairAt(fs, j, i, s) && Joins(s, a, b);
      SegmentsOfFeatures(fs, s);
      var l :| 0 <= l < |segs| && segs[l] == s;
    }
  }
}
