/** The navigation graph of NeonVectorBackground.js: nodes at aisle endpoints
    and crossings, keyed by their coordinates, and an adjacency list per node
    whose edges cost the length of the aisle piece they follow. JavaScript's
    `Map` keeps insertion order, so the node table is a list without repeats
    (`nodeList`) and the adjacency lists are a map from node to list. */
module NavGraph {
  import opened Common
  import opened ParkingLot

  datatype Edge = Edge(key: Point, cost: real)

  datatype Graph = Graph(nodes: seq<Point>, neighbors: map<Point, seq<Edge>>)

  predicate NoDup<T(==)>(s: seq<T>) {
    forall i, j :: 0 <= i < j < |s| ==> s[i] != s[j]
  }

  predicate StrictlyIncreasing(s: seq<real>) {
    forall i, j :: 0 <= i < j < |s| ==> s[i] < s[j]
  }

  /** An edge from `a` to `b` is in `a`'s adjacency list. */
  ghost predicate HasEdge(g: Graph, a: Point, b: Point) {
    a in g.neighbors && exists e :: e in g.neighbors[a] && e.key == b
  }

  /** The shape every graph the builder produces keeps:
      - the node list has no repeats and the adjacency map has exactly the nodes as keys;
      - every edge leads to a node, runs along one axis and costs the (positive)
        distance between its ends;
      - adjacency is symmetric: every edge a -> b of cost c has a partner b -> a of cost c. */
  ghost predicate WellFormed(g: Graph) {
    && NoDup(g.nodes)
    && (forall p :: p in g.neighbors <==> p in g.nodes)
    && (forall a, e :: a in g.neighbors && e in g.neighbors[a] ==>
          && e.key in g.neighbors
          && (a.x == e.key.x || a.y == e.key.y)
          && e.cost == Manhattan(a, e.key) && e.cost > 0.0
          && Edge(a, e.cost) in g.neighbors[e.key])
  }

  /** Every edge runs along one axis: the part of `WellFormed` that route
      shapes rely on. */
  ghost predicate AxisEdges(g: Graph) {
    forall a, e :: a in g.neighbors && e in g.neighbors[a] ==> a.x == e.key.x || a.y == e.key.y
  }

  lemma WellFormedAxisEdges(g: Graph)
    requires WellFormed(g)
    ensures AxisEdges(g)
  {
  }

  /** `addNode` on an abstract graph: add the node and an empty list, each only if missing. */
  function WithNode(g: Graph, p: Point): Graph {
    Graph(if p in g.nodes then g.nodes else g.nodes + [p],
          if p in g.neighbors then g.neighbors else g.neighbors[p := []])
  }

  /** `addEdge` on an abstract graph: append b to a's list, then a to b's list. */
  function WithEdge(g: Graph, a: Point, b: Point, cost: real): Graph
    requires a in g.neighbors && b in g.neighbors
  {
    var n1 := g.neighbors[a := g.neighbors[a] + [Edge(b, cost)]];
    Graph(g.nodes, n1[b := n1[b] + [Edge(a, cost)]])
  }

  /** Adding a node that is already there changes nothing: no second node, no second list. */
  lemma WithNodeIdempotent(g: Graph, p: Point)
    ensures WithNode(WithNode(g, p), p) == WithNode(g, p)
    ensures p in WithNode(g, p).nodes && p in WithNode(g, p).neighbors
    ensures p in g.nodes && p in g.neighbors ==> WithNode(g, p) == g
  {
  }

  lemma WithNodeWellFormed(g: Graph, p: Point)
    requires WellFormed(g)
    ensures WellFormed(WithNode(g, p))
    ensures p in WithNode(g, p).neighbors
  {
    var g' := WithNode(g, p);
    if p !in g.nodes {
      assert p !in g.neighbors;
      forall i, j | 0 <= i < j < |g'.nodes| ensures g'.nodes[i] != g'.nodes[j] {
        if j == |g.nodes| { assert g.nodes[i] in g.nodes; }
      }
    }
  }

  /** Adding an edge puts b in a's list and a in b's list, with the same cost. */
  lemma WithEdgeSymmetric(g: Graph, a: Point, b: Point, cost: real)
    requires a in g.neighbors && b in g.neighbors
    ensures Edge(b, cost) in WithEdge(g, a, b, cost).neighbors[a]
    ensures Edge(a, cost) in WithEdge(g, a, b, cost).neighbors[b]
    ensures WithEdge(g, a, b, cost).neighbors.Keys == g.neighbors.Keys
    ensures forall k, e :: k in g.neighbors && e in g.neighbors[k] ==> e in WithEdge(g, a, b, cost).neighbors[k]
  {
    var g' := WithEdge(g, a, b, cost);
    assert g'.neighbors[a][|g'.neighbors[a]| - 1 - (if a == b then 1 else 0)] == Edge(b, cost);
  }

  /** An edge between two distinct nodes on one axis, costing their distance, keeps the graph well formed. */
  lemma {:induction false} WithEdgeWellFormed(g: Graph, a: Point, b: Point, cost: real)
    requires WellFormed(g) && a in g.neighbors && b in g.neighbors
    requires a != b && (a.x == b.x || a.y == b.y) && cost == Manhattan(a, b)
    ensures WellFormed(WithEdge(g, a, b, cost))
  {
    var g' := WithEdge(g, a, b, cost);
    WithEdgeSymmetric(g, a, b, cost);
    assert Manhattan(a, b) == Manhattan(b, a);
    forall k, e | k in g'.neighbors && e in g'.neighbors[k]
      ensures e.key in g'.neighbors
      ensures (k.x == e.key.x || k.y == e.key.y)
      ensures e.cost == Manhattan(k, e.key) && e.cost > 0.0
      ensures Edge(k, e.cost) in g'.neighbors[e.key]
    {
      if k == a && e == Edge(b, cost) {
      } else if k == b && e == Edge(a, cost) {
      } else {
        assert e in g.neighbors[k] by {
          if k == a {
            assert g'.neighbors[a] == g.neighbors[a] + [Edge(b, cost)];
          } else if k == b {
            assert g'.neighbors[b] == g.neighbors[b] + [Edge(a, cost)];
          }
        }
      }
    }
  }


  /** Consecutive points are distinct and lie on one axis: a run the builder can join. */
  predicate Straight(pts: seq<Point>) {
    forall i :: 0 <= i < |pts| - 1 ==>
      pts[i] != pts[i + 1] && (pts[i].x == pts[i + 1].x || pts[i].y == pts[i + 1].y)
  }

  /** a and b are in each other's lists, both ways at the distance between them. */
  ghost predicate Joined(g: Graph, a: Point, b: Point) {
    && a in g.neighbors && b in g.neighbors
    && Edge(b, Manhattan(a, b)) in g.neighbors[a]
    && Edge(a, Manhattan(a, b)) in g.neighbors[b]
  }

  /** Every point of the run is a node, and each consecutive pair is joined. */
  ghost predicate ChainIn(g: Graph, pts: seq<Point>) {
    && (forall i :: 0 <= i < |pts| ==> pts[i] in g.nodes)
    && (forall i :: 0 <= i < |pts| - 1 ==> Joined(g, pts[i], pts[i + 1]))
  }

  /** g' keeps every node, every list and every edge of g. */
  ghost predicate Extends(g: Graph, g': Graph) {
    && (forall p :: p in g.nodes ==> p in g'.nodes)
    && (forall k, e :: k in g.neighbors && e in g.neighbors[k] ==> k in g'.neighbors && e in g'.neighbors[k])
    && (forall k :: k in g.neighbors ==> k in g'.neighbors)
  }

  lemma ExtendsTrans(g1: Graph, g2: Graph, g3: Graph)
    requires Extends(g1, g2) && Extends(g2, g3)
    ensures Extends(g1, g3)
  {
  }

  lemma ChainInExtends(g: Graph, g': Graph, pts: seq<Point>)
    requires ChainIn(g, pts) && Extends(g, g')
    ensures ChainIn(g', pts)
  {
    forall i | 0 <= i < |pts| - 1 ensures Joined(g', pts[i], pts[i + 1]) {
      assert Joined(g, pts[i], pts[i + 1]);
    }
  }

  /** The points `(xs[i], y)` of a horizontal run. */
  function Row(xs: seq<real>, y: real): (pts: seq<Point>)
    ensures |pts| == |xs| && forall i :: 0 <= i < |xs| ==> pts[i] == Point(xs[i], y)
  {
    seq(|xs|, i requires 0 <= i < |xs| => Point(xs[i], y))
  }

  /** The points `(x, ys[i])` of a vertical run. */
  function Column(x: real, ys: seq<real>): (pts: seq<Point>)
    ensures |pts| == |ys| && forall i :: 0 <= i < |ys| ==> pts[i] == Point(x, ys[i])
  {
    seq(|ys|, i requires 0 <= i < |ys| => Point(x, ys[i]))
  }

  /** The first loop of a chain, `keys = xs.map(x => addNode(x, y))`, on an
      abstract graph: the points are added one after the other. */
  function AddNodes(g: Graph, pts: seq<Point>): (g': Graph)
    ensures forall p :: p in g'.nodes <==> p in g.nodes || p in pts
    ensures forall p :: p in g'.neighbors <==> p in g.neighbors || p in pts
    ensures forall k :: k in g.neighbors ==> g'.neighbors[k] == g.neighbors[k]
    decreases |pts|
  {
    if |pts| == 0 then g
    else
      var g1 := WithNode(g, pts[0]);
      assert pts == [pts[0]] + pts[1..];
      assert forall k :: k in g.neighbors ==> k in g1.neighbors && g1.neighbors[k] == g.neighbors[k];
      AddNodes(g1, pts[1..])
  }

  /** The second loop of a chain from step i on: for j = i, i + 1, ..., in
      order, an edge between pts[j] and pts[j + 1] costing their distance. */
  function AddEdges(g: Graph, pts: seq<Point>, i: nat): (g': Graph)
    requires forall p :: p in pts ==> p in g.neighbors
    ensures g'.nodes == g.nodes && g'.neighbors.Keys == g.neighbors.Keys
    decreases |pts| - i
  {
    if i + 1 >= |pts| then g
    else
      assert pts[i] in pts && pts[i + 1] in pts;
      AddEdges(WithEdge(g, pts[i], pts[i + 1], Manhattan(pts[i], pts[i + 1])), pts, i + 1)
  }

  /** One turn of each loop of a chain. */
  lemma AddNodesStep(g: Graph, pts: seq<Point>, i: nat)
    requires i < |pts|
    ensures AddNodes(g, pts[i..]) == AddNodes(WithNode(g, pts[i]), pts[i + 1..])
  {
    assert pts[i..][1..] == pts[i + 1..];
  }

  lemma AddEdgesStep(g: Graph, pts: seq<Point>, i: nat)
    requires i + 1 < |pts| && forall p :: p in pts ==> p in g.neighbors
    ensures pts[i] in g.neighbors && pts[i + 1] in g.neighbors
    ensures AddEdges(g, pts, i) == AddEdges(WithEdge(g, pts[i], pts[i + 1], Manhattan(pts[i], pts[i + 1])), pts, i + 1)
  {
    assert pts[i] in pts && pts[i + 1] in pts;
  }

  /** A whole chain: its nodes, then the edges between consecutive ones. */
  function AddChain(g: Graph, pts: seq<Point>): Graph {
    AddEdges(AddNodes(g, pts), pts, 0)
  }

  lemma {:induction false} AddNodesWellFormed(g: Graph, pts: seq<Point>)
    requires WellFormed(g)
    ensures WellFormed(AddNodes(g, pts))
    decreases |pts|
  {
    if |pts| > 0 {
      WithNodeWellFormed(g, pts[0]);
      AddNodesWellFormed(WithNode(g, pts[0]), pts[1..]);
    }
  }

  lemma JoinedExtends(g: Graph, g': Graph, a: Point, b: Point)
    requires Joined(g, a, b) && Extends(g, g')
    ensures Joined(g', a, b)
  {
  }

  /** One edge keeps everything the graph had and joins its ends. */
  lemma WithEdgeExtends(g: Graph, a: Point, b: Point)
    requires a in g.neighbors && b in g.neighbors
    ensures Extends(g, WithEdge(g, a, b, Manhattan(a, b)))
    ensures Joined(WithEdge(g, a, b, Manhattan(a, b)), a, b)
  {
    WithEdgeSymmetric(g, a, b, Manhattan(a, b));
  }

  /** The edge loop keeps the graph well formed. */
  lemma {:induction false} AddEdgesWellFormed(g: Graph, pts: seq<Point>, i: nat)
    requires forall p :: p in pts ==> p in g.neighbors
    requires WellFormed(g) && Straight(pts)
    ensures WellFormed(AddEdges(g, pts, i))
    decreases |pts| - i
  {
    if i + 1 < |pts| {
      var a, b := pts[i], pts[i + 1];
      assert a in pts && b in pts;
      WithEdgeWellFormed(g, a, b, Manhattan(a, b));
      AddEdgesWellFormed(WithEdge(g, a, b, Manhattan(a, b)), pts, i + 1);
    }
  }

  /** The edge loop loses nothing and joins each consecutive pair from step i on. */
  lemma {:induction false} AddEdgesJoins(g: Graph, pts: seq<Point>, i: nat)
    requires forall p :: p in pts ==> p in g.neighbors
    ensures Extends(g, AddEdges(g, pts, i))
    ensures forall j :: i <= j < |pts| - 1 ==> Joined(AddEdges(g, pts, i), pts[j], pts[j + 1])
    decreases |pts| - i
  {
    if i + 1 < |pts| {
      var a, b := pts[i], pts[i + 1];
      assert a in pts && b in pts;
      var g' := WithEdge(g, a, b, Manhattan(a, b));
      var last := AddEdges(g', pts, i + 1);
      WithEdgeExtends(g, a, b);
      AddEdgesJoins(g', pts, i + 1);
      ExtendsTrans(g, g', last);
      JoinedExtends(g', last, a, b);
    }
  }

  /** Adding a straight run keeps the graph well formed. */
  lemma ChainWellFormed(g: Graph, pts: seq<Point>)
    requires WellFormed(g) && Straight(pts)
    ensures WellFormed(AddChain(g, pts))
  {
    AddNodesWellFormed(g, pts);
    AddEdgesWellFormed(AddNodes(g, pts), pts, 0);
  }

  /** Adding a run keeps everything the graph had and leaves the run in the
      graph joined end to end. */
  lemma ChainJoins(g: Graph, pts: seq<Point>)
    ensures Extends(g, AddChain(g, pts)) && ChainIn(AddChain(g, pts), pts)
  {
    var g1 := AddNodes(g, pts);
    assert Extends(g, g1);
    AddEdgesJoins(g1, pts, 0);
    ExtendsTrans(g, g1, AddChain(g, pts));
    forall i | 0 <= i < |pts| ensures pts[i] in AddChain(g, pts).nodes {
      assert pts[i] in pts;
    }
  }

  /** The graph builder's mutable state: the `nodes` and `neighbors` maps. */
  class Builder {
    var nodes: seq<Point>
    var neighbors: map<Point, seq<Edge>>

    function Current(): Graph
      reads this
    {
      Graph(nodes, neighbors)
    }

    constructor ()
      ensures Current() == Graph([], map[])
    {
      nodes := [];
      neighbors := map[];
    }

    /** `addNode(x, y)`: returns the node's key, which is its coordinate pair. */
    method AddNode(x: real, y: real) returns (key: Point)
      modifies this
      ensures key == Point(x, y)
      ensures Current() == WithNode(old(Current()), key)
    {
      key := Point(x, y);
      if key !in nodes { nodes := nodes + [key]; }
      if key !in neighbors { neighbors := neighbors[key := []]; }
    }

    /** `addEdge(a, b, cost)`: the source dereferences both lists, so both must exist. */
    method AddEdge(a: Point, b: Point, cost: real)
      requires a in neighbors && b in neighbors
      modifies this
      ensures Current() == WithEdge(old(Current()), a, b, cost)
    {
      neighbors := neighbors[a := neighbors[a] + [Edge(b, cost)]];
      neighbors := neighbors[b := neighbors[b] + [Edge(a, cost)]];
    }

    /** `keys = pts.map(p => addNode(p.x, p.y))` */
    method AddNodeList(pts: seq<Point>) returns (keys: seq<Point>)
      modifies this
      ensures keys == pts
      ensures Current() == AddNodes(old(Current()), pts)
    {
      ghost var g0 := Current();
      keys := [];
      var i := 0;
      while i < |pts|
        invariant i <= |pts| && keys == pts[..i]
        invariant AddNodes(Current(), pts[i..]) == AddNodes(g0, pts)
      {
        AddNodesStep(Current(), pts, i);
        var k := AddNode(pts[i].x, pts[i].y);
        assert k == pts[i];
        PrefixSnoc(pts, i);
        keys := keys + [k];
        i := i + 1;
      }
    }

    /** One horizontal aisle: a node at every x on height y, then an edge
        between each consecutive pair costing `Math.abs(b.x - a.x)`. */
    method AddHorizontalChain(xs: seq<real>, y: real)
      modifies this
      ensures Current() == AddChain(old(Current()), Row(xs, y))
    {
      var keys := AddNodeList(Row(xs, y));
      ghost var pts := keys;
      ghost var g1 := Current();
      var i := 0;
      while i < |keys| - 1
        invariant 0 <= i
        invariant forall p :: p in pts ==> p in neighbors
        invariant AddEdges(Current(), pts, i) == AddEdges(g1, pts, 0)
      {
        var a, b := keys[i], keys[i + 1];
        assert Abs(b.x - a.x) == Manhattan(a, b) by { assert a.y == b.y; }
        AddEdgesStep(Current(), pts, i);
        AddEdge(a, b, Abs(b.x - a.x));
        i := i + 1;
      }
    }

    /** One vertical main: a node at every y on x, then an edge between each
        consecutive pair costing `Math.abs(b.y - a.y)`. */
    method AddVerticalChain(x: real, ys: seq<real>)
      modifies this
      ensures Current() == AddChain(old(Current()), Column(x, ys))
    {
      var keys := AddNodeList(Column(x, ys));
      ghost var pts := keys;
      ghost var g1 := Current();
      var i := 0;
      while i < |keys| - 1
        invariant 0 <= i
        invariant forall p :: p in pts ==> p in neighbors
        invariant AddEdges(Current(), pts, i) == AddEdges(g1, pts, 0)
      {
        var a, b := keys[i], keys[i + 1];
        assert Abs(b.y - a.y) == Manhattan(a, b) by { assert a.x == b.x; }
        AddEdgesStep(Current(), pts, i);
        AddEdge(a, b, Abs(b.y - a.y));
        i := i + 1;
      }
    }
  }

  /** `list.filter(f)` */
  function Filter<T(!new)>(s: seq<T>, f: T -> bool): (r: seq<T>)
    ensures |r| <= |s|
    ensures forall x :: x in r <==> x in s && f(x)
  {
    if |s| == 0 then [] else (if f(s[0]) then [s[0]] else []) + Filter(s[1..], f)
  }

  /** Insert into a strictly increasing list, keeping it strictly increasing and without repeats. */
  function {:induction false} Insert(x: real, r: seq<real>): (r': seq<real>)
    requires StrictlyIncreasing(r)
    ensures StrictlyIncreasing(r')
    ensures forall z :: z in r' <==> z == x || z in r
  {
    if |r| == 0 then [x]
    else if x < r[0] then [x] + r
    else if x == r[0] then r
    else
      var t := Insert(x, r[1..]);
      assert forall z :: z in r[1..] ==> r[0] < z;
      assert forall j :: 0 <= j < |t| ==> r[0] < t[j] by {
        forall j | 0 <= j < |t| ensures r[0] < t[j] { assert t[j] in t; }
      }
      [r[0]] + t
  }

  /** `Array.from(new Set(s)).sort((a, b) => a - b)`: the distinct values of `s`, ascending. */
  function {:induction false} SortDistinct(s: seq<real>): (r: seq<real>)
    ensures StrictlyIncreasing(r)
    ensures forall z :: z in r <==> z in s
  {
    if |s| == 0 then [] else Insert(s[0], SortDistinct(s[1..]))
  }

  /** `s.filter(z => z >= lo && z <= hi)` on an ascending list. */
  function {:induction false} InRange(s: seq<real>, lo: real, hi: real): (r: seq<real>)
    requires StrictlyIncreasing(s)
    ensures StrictlyIncreasing(r)
    ensures forall z :: z in r <==> z in s && lo <= z <= hi
  {
    if |s| == 0 then []
    else
      var t := InRange(s[1..], lo, hi);
      assert forall z :: z in s[1..] ==> s[0] < z;
      assert forall j :: 0 <= j < |t| ==> s[0] < t[j] by {
        forall j | 0 <= j < |t| ensures s[0] < t[j] { assert t[j] in t; }
      }
      (if lo <= s[0] <= hi then [s[0]] else []) + t
  }

  /** `Math.min(...s)` and `Math.max(...s)` of a non-empty list. */
  function MinOf(s: seq<real>): (m: real)
    requires |s| > 0
    ensures m in s && forall z :: z in s ==> m <= z
  {
    if |s| == 1 then s[0]
    else
      assert s == [s[0]] + s[1..];
      Min(s[0], MinOf(s[1..]))
  }

  function MaxOf(s: seq<real>): (m: real)
    requires |s| > 0
    ensures m in s && forall z :: z in s ==> z <= m
  {
    if |s| == 1 then s[0]
    else
      assert s == [s[0]] + s[1..];
      Max(s[0], MaxOf(s[1..]))
  }

  function Ys(hs: seq<Aisle>): (r: seq<real>)
    ensures |r| == |hs| && forall i :: 0 <= i < |hs| ==> r[i] == hs[i].y1
  {
    seq(|hs|, i requires 0 <= i < |hs| => hs[i].y1)
  }

  function Xs(vs: seq<Aisle>): (r: seq<real>)
    ensures |r| == |vs| && forall i :: 0 <= i < |vs| ==> r[i] == vs[i].x1
  {
    seq(|vs|, i requires 0 <= i < |vs| => vs[i].x1)
  }

  /** `verticals.filter(v => v.x1 === x)` */
  function AtX(verticals: seq<Aisle>, x: real): (r: seq<Aisle>)
    ensures forall v :: v in r <==> v in verticals && v.x1 == x
  {
    Filter(verticals, (v: Aisle) => v.x1 == x)
  }

  /** The low and high ends, `Math.min(v.y1, v.y2)` and `Math.max(v.y1, v.y2)`, of each vertical. */
  function Lows(vs: seq<Aisle>): (r: seq<real>)
    ensures |r| == |vs| && forall i :: 0 <= i < |vs| ==> r[i] == Min(vs[i].y1, vs[i].y2)
  {
    seq(|vs|, i requires 0 <= i < |vs| => Min(vs[i].y1, vs[i].y2))
  }

  function Highs(vs: seq<Aisle>): (r: seq<real>)
    ensures |r| == |vs| && forall i :: 0 <= i < |vs| ==> r[i] == Max(vs[i].y1, vs[i].y2)
  {
    seq(|vs|, i requires 0 <= i < |vs| => Max(vs[i].y1, vs[i].y2))
  }

  /** The x values a horizontal aisle is cut at:
      `Array.from(new Set([minX, ...crossings, maxX])).sort((a, b) => a - b)`. */
  function Cuts(h: Aisle, verticalXs: seq<real>): (xs: seq<real>)
    requires StrictlyIncreasing(verticalXs)
    ensures StrictlyIncreasing(xs)
    ensures forall x :: x in xs <==>
              || x == Min(h.x1, h.x2) || x == Max(h.x1, h.x2)
              || (x in verticalXs && Min(h.x1, h.x2) <= x <= Max(h.x1, h.x2))
  {
    var minX, maxX := Min(h.x1, h.x2), Max(h.x1, h.x2);
    SortDistinct([minX] + InRange(verticalXs, minX, maxX) + [maxX])
  }

  /** The y values a vertical x is cut at: the horizontal ys between the lowest
      low end and the highest high end of the verticals at x. With no vertical
      at x, `Math.min()` is Infinity and `Math.max()` is -Infinity, so no y passes. */
  function VerticalCuts(verticals: seq<Aisle>, x: real, horizontalYs: seq<real>): (ys: seq<real>)
    requires StrictlyIncreasing(horizontalYs)
    ensures StrictlyIncreasing(ys)
  {
    var matching := AtX(verticals, x);
    if |matching| == 0 then []
    else InRange(horizontalYs, MinOf(Lows(matching)), MaxOf(Highs(matching)))
  }

  /** The lowest low end is at or below y exactly when some vertical's low end is. */
  lemma LowestLow(vs: seq<Aisle>, y: real)
    requires |vs| > 0
    ensures MinOf(Lows(vs)) <= y <==> exists v :: v in vs && Min(v.y1, v.y2) <= y
  {
    var lows := Lows(vs);
    var k :| 0 <= k < |lows| && lows[k] == MinOf(lows);
    assert vs[k] in vs;
    if exists v :: v in vs && Min(v.y1, v.y2) <= y {
      var v :| v in vs && Min(v.y1, v.y2) <= y;
      var i :| 0 <= i < |vs| && vs[i] == v;
      assert lows[i] in lows;
    }
  }

  /** The highest high end is at or above y exactly when some vertical's high end is. */
  lemma HighestHigh(vs: seq<Aisle>, y: real)
    requires |vs| > 0
    ensures y <= MaxOf(Highs(vs)) <==> exists v :: v in vs && y <= Max(v.y1, v.y2)
  {
    var highs := Highs(vs);
    var k :| 0 <= k < |highs| && highs[k] == MaxOf(highs);
    assert vs[k] in vs;
    if exists v :: v in vs && y <= Max(v.y1, v.y2) {
      var v :| v in vs && y <= Max(v.y1, v.y2);
      var i :| 0 <= i < |vs| && vs[i] == v;
      assert highs[i] in highs;
    }
  }

  /** A horizontal y is a cut of x exactly when some vertical at x reaches down
      to it and some (possibly other) vertical at x reaches up to it. */
  lemma VerticalCutsExact(verticals: seq<Aisle>, x: real, horizontalYs: seq<real>, y: real)
    requires StrictlyIncreasing(horizontalYs)
    ensures y in VerticalCuts(verticals, x, horizontalYs) <==>
              && y in horizontalYs
              && (exists v :: v in verticals && v.x1 == x && Min(v.y1, v.y2) <= y)
              && (exists v :: v in verticals && v.x1 == x && y <= Max(v.y1, v.y2))
  {
    var matching := AtX(verticals, x);
    if |matching| > 0 {
      LowestLow(matching, y);
      HighestHigh(matching, y);
    }
  }

  /** `horizontals.forEach(...)` on an abstract graph: one chain per horizontal aisle, in order. */
  function HorizontalPass(g: Graph, hs: seq<Aisle>, verticalXs: seq<real>): Graph
    requires StrictlyIncreasing(verticalXs)
    decreases |hs|
  {
    if |hs| == 0 then g
    else
      var h := hs[|hs| - 1];
      AddChain(HorizontalPass(g, hs[..|hs| - 1], verticalXs), Row(Cuts(h, verticalXs), h.y1))
  }

  /** `verticalXs.forEach(...)` on an abstract graph: one chain per vertical x, in order
      (a chain without points adds nothing, as the source's early `return`). */
  function VerticalPass(g: Graph, verticals: seq<Aisle>, xs: seq<real>, horizontalYs: seq<real>): Graph
    requires StrictlyIncreasing(horizontalYs)
    decreases |xs|
  {
    if |xs| == 0 then g
    else
      var x := xs[|xs| - 1];
      AddChain(VerticalPass(g, verticals, xs[..|xs| - 1], horizontalYs), Column(x, VerticalCuts(verticals, x, horizontalYs)))
  }

  /** One turn of each pass. */
  lemma HorizontalPassStep(g: Graph, hs: seq<Aisle>, verticalXs: seq<real>, i: nat)
    requires StrictlyIncreasing(verticalXs) && i < |hs|
    ensures HorizontalPass(g, hs[..i + 1], verticalXs)
            == AddChain(HorizontalPass(g, hs[..i], verticalXs), Row(Cuts(hs[i], verticalXs), hs[i].y1))
  {
    assert hs[..i + 1][..i] == hs[..i];
  }

  lemma VerticalPassStep(g: Graph, verticals: seq<Aisle>, xs: seq<real>, horizontalYs: seq<real>, i: nat)
    requires StrictlyIncreasing(horizontalYs) && i < |xs|
    ensures VerticalPass(g, verticals, xs[..i + 1], horizontalYs)
            == AddChain(VerticalPass(g, verticals, xs[..i], horizontalYs), Column(xs[i], VerticalCuts(verticals, xs[i], horizontalYs)))
  {
    assert xs[..i + 1][..i] == xs[..i];
  }

  /** A chain without points adds nothing. */
  lemma AddChainEmpty(g: Graph)
    ensures AddChain(g, []) == g
  {
  }

  /** The distinct y values of the horizontal aisles and x values of the vertical ones, ascending. */
  function HorizontalYs(aisles: seq<Aisle>): (ys: seq<real>)
    ensures StrictlyIncreasing(ys)
  {
    SortDistinct(Ys(Filter(aisles, Horizontal)))
  }

  function VerticalXs(aisles: seq<Aisle>): (xs: seq<real>)
    ensures StrictlyIncreasing(xs)
    ensures forall v :: v in aisles && Vertical(v) ==> v.x1 in xs
  {
    var verticals := Filter(aisles, Vertical);
    assert forall k :: 0 <= k < |verticals| ==> Xs(verticals)[k] in Xs(verticals);
    SortDistinct(Xs(verticals))
  }

  /** The graph `buildGraph` produces, as a function of the aisles. */
  function NavGraphOf(aisles: seq<Aisle>): Graph {
    var gh := HorizontalPass(Graph([], map[]), Filter(aisles, Horizontal), VerticalXs(aisles));
    VerticalPass(gh, Filter(aisles, Vertical), VerticalXs(aisles), HorizontalYs(aisles))
  }

  lemma {:induction false} HorizontalPassWellFormed(g: Graph, hs: seq<Aisle>, verticalXs: seq<real>)
    requires WellFormed(g) && StrictlyIncreasing(verticalXs)
    ensures WellFormed(HorizontalPass(g, hs, verticalXs))
    decreases |hs|
  {
    if |hs| > 0 {
      var h := hs[|hs| - 1];
      HorizontalPassWellFormed(g, hs[..|hs| - 1], verticalXs);
      ChainWellFormed(HorizontalPass(g, hs[..|hs| - 1], verticalXs), Row(Cuts(h, verticalXs), h.y1));
    }
  }

  lemma {:induction false} HorizontalPassChains(g: Graph, hs: seq<Aisle>, verticalXs: seq<real>)
    requires StrictlyIncreasing(verticalXs)
    ensures Extends(g, HorizontalPass(g, hs, verticalXs))
    ensures forall h :: h in hs ==> ChainIn(HorizontalPass(g, hs, verticalXs), Row(Cuts(h, verticalXs), h.y1))
    decreases |hs|
  {
    if |hs| > 0 {
      var init, h := hs[..|hs| - 1], hs[|hs| - 1];
      assert hs == init + [h];
      HorizontalPassChains(g, init, verticalXs);
      var prev := HorizontalPass(g, init, verticalXs);
      var next := HorizontalPass(g, hs, verticalXs);
      ChainJoins(prev, Row(Cuts(h, verticalXs), h.y1));
      ExtendsTrans(g, prev, next);
      forall h' | h' in init ensures ChainIn(next, Row(Cuts(h', verticalXs), h'.y1)) {
        ChainInExtends(prev, next, Row(Cuts(h', verticalXs), h'.y1));
      }
    }
  }

  lemma {:induction false} VerticalPassWellFormed(g: Graph, verticals: seq<Aisle>, xs: seq<real>, horizontalYs: seq<real>)
    requires WellFormed(g) && StrictlyIncreasing(horizontalYs)
    ensures WellFormed(VerticalPass(g, verticals, xs, horizontalYs))
    decreases |xs|
  {
    if |xs| > 0 {
      var x := xs[|xs| - 1];
      VerticalPassWellFormed(g, verticals, xs[..|xs| - 1], horizontalYs);
      ChainWellFormed(VerticalPass(g, verticals, xs[..|xs| - 1], horizontalYs), Column(x, VerticalCuts(verticals, x, horizontalYs)));
    }
  }

  lemma {:induction false} VerticalPassChains(g: Graph, verticals: seq<Aisle>, xs: seq<real>, horizontalYs: seq<real>)
    requires StrictlyIncreasing(horizontalYs)
    ensures Extends(g, VerticalPass(g, verticals, xs, horizontalYs))
    ensures forall x :: x in xs ==>
              ChainIn(VerticalPass(g, verticals, xs, horizontalYs), Column(x, VerticalCuts(verticals, x, horizontalYs)))
    decreases |xs|
  {
    if |xs| > 0 {
      var init, x := xs[..|xs| - 1], xs[|xs| - 1];
      assert xs == init + [x];
      VerticalPassChains(g, verticals, init, horizontalYs);
      var prev := VerticalPass(g, verticals, init, horizontalYs);
      var next := VerticalPass(g, verticals, xs, horizontalYs);
      ChainJoins(prev, Column(x, VerticalCuts(verticals, x, horizontalYs)));
      ExtendsTrans(g, prev, next);
      forall x' | x' in init ensures ChainIn(next, Column(x', VerticalCuts(verticals, x', horizontalYs))) {
        ChainInExtends(prev, next, Column(x', VerticalCuts(verticals, x', horizontalYs)));
      }
    }
  }

  /** The built graph is well formed. */
  lemma NavGraphWellFormed(aisles: seq<Aisle>)
    ensures WellFormed(NavGraphOf(aisles))
  {
    var g0 := Graph([], map[]);
    assert WellFormed(g0);
    HorizontalPassWellFormed(g0, Filter(aisles, Horizontal), VerticalXs(aisles));
    VerticalPassWellFormed(HorizontalPass(g0, Filter(aisles, Horizontal), VerticalXs(aisles)),
                           Filter(aisles, Vertical), VerticalXs(aisles), HorizontalYs(aisles));
  }

  /** Every horizontal aisle and every vertical x is in the built graph as a
      chain joined end to end at its cuts. */
  lemma NavGraphChains(aisles: seq<Aisle>)
    ensures forall h :: h in aisles && Horizontal(h) ==>
              ChainIn(NavGraphOf(aisles), Row(Cuts(h, VerticalXs(aisles)), h.y1))
    ensures forall x :: x in VerticalXs(aisles) ==>
              ChainIn(NavGraphOf(aisles), Column(x, VerticalCuts(Filter(aisles, Vertical), x, HorizontalYs(aisles))))
  {
    var hs, vs := Filter(aisles, Horizontal), Filter(aisles, Vertical);
    var vx, hy := VerticalXs(aisles), HorizontalYs(aisles);
    var gh := HorizontalPass(Graph([], map[]), hs, vx);
    HorizontalPassChains(Graph([], map[]), hs, vx);
    VerticalPassChains(gh, vs, vx, hy);
    forall h | h in aisles && Horizontal(h) ensures ChainIn(NavGraphOf(aisles), Row(Cuts(h, vx), h.y1)) {
      assert h in hs;
      ChainInExtends(gh, NavGraphOf(aisles), Row(Cuts(h, vx), h.y1));
    }
  }

  /** Every point of a chain in the graph is a node. */
  lemma ChainNodes(g: Graph, pts: seq<Point>, p: Point)
    requires ChainIn(g, pts) && p in pts
    ensures p in g.nodes
  {
    var i :| 0 <= i < |pts| && pts[i] == p;
  }

  lemma RowNode(g: Graph, xs: seq<real>, y: real, x: real)
    requires ChainIn(g, Row(xs, y)) && x in xs
    ensures Point(x, y) in g.nodes
  {
    var i :| 0 <= i < |xs| && xs[i] == x;
    ChainNodes(g, Row(xs, y), Row(xs, y)[i]);
  }

  lemma ColumnNode(g: Graph, x: real, ys: seq<real>, y: real)
    requires ChainIn(g, Column(x, ys)) && y in ys
    ensures Point(x, y) in g.nodes
  {
    var i :| 0 <= i < |ys| && ys[i] == y;
    ChainNodes(g, Column(x, ys), Column(x, ys)[i]);
  }

  /** Every cut of every horizontal aisle is a node. */
  lemma NavGraphRowNodes(aisles: seq<Aisle>)
    ensures forall h, x :: h in aisles && Horizontal(h) && x in Cuts(h, VerticalXs(aisles)) ==>
              Point(x, h.y1) in NavGraphOf(aisles).nodes
  {
    NavGraphChains(aisles);
    forall h, x | h in aisles && Horizontal(h) && x in Cuts(h, VerticalXs(aisles))
      ensures Point(x, h.y1) in NavGraphOf(aisles).nodes
    {
      RowNode(NavGraphOf(aisles), Cuts(h, VerticalXs(aisles)), h.y1, x);
    }
  }

  /** The endpoints and every crossing of a horizontal aisle are nodes. */
  ghost predicate HorizontalCovered(g: Graph, h: Aisle, verticalXs: seq<real>) {
    var minX := Min(h.x1, h.x2);
    var maxX := Max(h.x1, h.x2);
    && Point(minX, h.y1) in g.nodes && Point(maxX, h.y1) in g.nodes
    && forall x :: x in verticalXs && minX <= x <= maxX ==> Point(x, h.y1) in g.nodes
  }

  /** Both ends of every horizontal aisle, and every point where a vertical crosses it, are nodes. */
  lemma NavGraphCrossings(aisles: seq<Aisle>)
    ensures forall h, v :: h in aisles && Horizontal(h) && v in aisles && Vertical(v) ==>
              HorizontalCovered(NavGraphOf(aisles), h, [v.x1])
  {
    forall h, v | h in aisles && Horizontal(h) && v in aisles && Vertical(v)
      ensures HorizontalCovered(NavGraphOf(aisles), h, [v.x1])
    {
      CrossingCovered(aisles, h, v.x1);
    }
  }

  lemma CrossingCovered(aisles: seq<Aisle>, h: Aisle, x: real)
    requires h in aisles && Horizontal(h) && x in VerticalXs(aisles)
    ensures HorizontalCovered(NavGraphOf(aisles), h, [x])
  {
    var xs := Cuts(h, VerticalXs(aisles));
    NavGraphRowNodes(aisles);
    assert Min(h.x1, h.x2) in xs && Max(h.x1, h.x2) in xs;
    if Min(h.x1, h.x2) <= x <= Max(h.x1, h.x2) {
      assert x in xs;
    }
  }

  /** Every cut of every vertical x is a node. */
  lemma NavGraphColumnNodes(aisles: seq<Aisle>)
    ensures forall x, y :: x in VerticalXs(aisles) && y in VerticalCuts(Filter(aisles, Vertical), x, HorizontalYs(aisles)) ==>
              Point(x, y) in NavGraphOf(aisles).nodes
  {
    NavGraphChains(aisles);
    forall x, y | x in VerticalXs(aisles) && y in VerticalCuts(Filter(aisles, Vertical), x, HorizontalYs(aisles))
      ensures Point(x, y) in NavGraphOf(aisles).nodes
    {
      ColumnNode(NavGraphOf(aisles), x, VerticalCuts(Filter(aisles, Vertical), x, HorizontalYs(aisles)), y);
    }
  }

  /** On every vertical aisle, each horizontal y within its span is a node. */
  lemma NavGraphVerticalNodes(aisles: seq<Aisle>)
    ensures forall v, y ::
              (v in aisles && Vertical(v) && y in HorizontalYs(aisles) && Min(v.y1, v.y2) <= y <= Max(v.y1, v.y2)) ==>
              Point(v.x1, y) in NavGraphOf(aisles).nodes
  {
    NavGraphColumnNodes(aisles);
    forall v, y | v in aisles && Vertical(v) && y in HorizontalYs(aisles) && Min(v.y1, v.y2) <= y <= Max(v.y1, v.y2)
      ensures Point(v.x1, y) in NavGraphOf(aisles).nodes
    {
      assert v in Filter(aisles, Vertical);
      VerticalCutsExact(Filter(aisles, Vertical), v.x1, HorizontalYs(aisles), y);
    }
  }

  /** A lot with a horizontal aisle gets a non-empty graph. */
  lemma NavGraphNonEmpty(aisles: seq<Aisle>)
    requires exists h :: h in aisles && Horizontal(h)
    ensures |NavGraphOf(aisles).nodes| > 0
  {
    var h :| h in aisles && Horizontal(h);
    NavGraphRowNodes(aisles);
    assert Min(h.x1, h.x2) in Cuts(h, VerticalXs(aisles));
    assert Point(Min(h.x1, h.x2), h.y1) in NavGraphOf(aisles).nodes;
  }

  /** `horizontals.forEach(...)`: each horizontal aisle is cut at its ends and
      at every vertical x inside it, and added as a chain. */
  method AddHorizontals(b: Builder, horizontals: seq<Aisle>, verticalXs: seq<real>)
    requires StrictlyIncreasing(verticalXs)
    modifies b
    ensures b.Current() == HorizontalPass(old(b.Current()), horizontals, verticalXs)
  {
    var i := 0;
    while i < |horizontals|
      invariant i <= |horizontals|
      invariant b.Current() == HorizontalPass(old(b.Current()), horizontals[..i], verticalXs)
    {
      var h := horizontals[i];
      var minX, maxX := Min(h.x1, h.x2), Max(h.x1, h.x2);
      var crossings := InRange(verticalXs, minX, maxX);
      var xs := SortDistinct([minX] + crossings + [maxX]);
      HorizontalPassStep(old(b.Current()), horizontals, verticalXs, i);
      b.AddHorizontalChain(xs, h.y1);
      i := i + 1;
    }
    assert horizontals[..i] == horizontals;
  }

  /** `verticalXs.forEach(...)`: each distinct vertical x is cut at every
      horizontal y inside the span of the verticals at that x, and added as a
      chain unless no y is left. */
  method AddVerticals(b: Builder, verticals: seq<Aisle>, verticalXs: seq<real>, horizontalYs: seq<real>)
    requires StrictlyIncreasing(horizontalYs)
    modifies b
    ensures b.Current() == VerticalPass(old(b.Current()), verticals, verticalXs, horizontalYs)
  {
    var i := 0;
    while i < |verticalXs|
      invariant i <= |verticalXs|
      invariant b.Current() == VerticalPass(old(b.Current()), verticals, verticalXs[..i], horizontalYs)
    {
      var x := verticalXs[i];
      var matching := AtX(verticals, x);
      var ys: seq<real> := [];
      if |matching| > 0 {
        var minY, maxY := MinOf(Lows(matching)), MaxOf(Highs(matching));
        ys := InRange(horizontalYs, minY, maxY);
      }
      assert ys == VerticalCuts(verticals, x, horizontalYs);
      VerticalPassStep(old(b.Current()), verticals, verticalXs, horizontalYs, i);
      if |ys| > 0 {
        b.AddVerticalChain(x, ys);
      } else {
        AddChainEmpty(b.Current());
      }
      i := i + 1;
    }
    assert verticalXs[..i] == verticalXs;
  }

  /** What the graph offers a route through the lot: every horizontal aisle
      is a chain of edges through its cuts, so is every distinct vertical x
      through the horizontal ys inside its span, every crossing of a
      horizontal with a vertical inside its span is a node, and there is a
      node as soon as there is a horizontal aisle. */
  ghost predicate Navigable(g: Graph, aisles: seq<Aisle>) {
    && (forall h :: h in aisles && Horizontal(h) ==> ChainIn(g, Row(Cuts(h, VerticalXs(aisles)), h.y1)))
    && (forall x :: x in VerticalXs(aisles) ==>
          ChainIn(g, Column(x, VerticalCuts(Filter(aisles, Vertical), x, HorizontalYs(aisles)))))
    && (forall h, v :: h in aisles && Horizontal(h) && v in aisles && Vertical(v) ==>
          HorizontalCovered(g, h, [v.x1]))
    && ((exists h :: h in aisles && Horizontal(h)) ==> |g.nodes| > 0)
  }

  /** Builds the navigation graph from the aisles: horizontal aisles
      (y1 == y2) are cut at every vertical they cross, then each distinct
      vertical x is cut at every horizontal y inside its span. */
  method BuildGraph(aisles: seq<Aisle>) returns (g: Graph)
    ensures g == NavGraphOf(aisles)
    ensures WellFormed(g) && Navigable(g, aisles)
  {
    var b := new Builder();
    var horizontals := Filter(aisles, Horizontal);
    var verticals := Filter(aisles, Vertical);
    var horizontalYs := SortDistinct(Ys(horizontals));
    var verticalXs := SortDistinct(Xs(verticals));
    AddHorizontals(b, horizontals, verticalXs);
    AddVerticals(b, verticals, verticalXs, horizontalYs);
    g := b.Current();
    NavGraphWellFormed(aisles);
    NavGraphChains(aisles);
    NavGraphCrossings(aisles);
    if exists h :: h in aisles && Horizontal(h) {
      NavGraphNonEmpty(aisles);
    }
  }

  /** Manhattan distance from the i-th node to pt. */
  function NodeDist(nodes: seq<Point>, pt: Point, i: nat): real
    requires i < |nodes|
  {
    Manhattan(nodes[i], pt)
  }

  /** Index i holds a node of least distance to pt, and no earlier node is as close. */
  ghost predicate FirstNearest(nodes: seq<Point>, pt: Point, i: nat) {
    && i < |nodes|
    && (forall j :: 0 <= j < |nodes| ==> NodeDist(nodes, pt, i) <= NodeDist(nodes, pt, j))
    && (forall j :: 0 <= j < i ==> NodeDist(nodes, pt, i) < NodeDist(nodes, pt, j))
  }

  /** `nearestNodeKey(pt)`: the first node (in insertion order) at least Manhattan
      distance from pt; none when the graph has no nodes. */
  method NearestNodeKey(g: Graph, pt: Point) returns (best: Option<Point>)
    ensures best.None? <==> |g.nodes| == 0
    ensures best.Some? ==> exists i: nat :: FirstNearest(g.nodes, pt, i) && g.nodes[i] == best.value
  {
    best := None;
    var bestD: Option<real> := None;   // None stands for Infinity
    ghost var bi: nat := 0;
    for k := 0 to |g.nodes|
      invariant best.None? <==> k == 0
      invariant bestD.None? <==> k == 0
      invariant k > 0 ==> bi < k && best == Some(g.nodes[bi]) && bestD == Some(NodeDist(g.nodes, pt, bi))
      invariant k > 0 ==> forall j :: 0 <= j < k ==> NodeDist(g.nodes, pt, bi) <= NodeDist(g.nodes, pt, j)
      invariant k > 0 ==> forall j :: 0 <= j < bi ==> NodeDist(g.nodes, pt, bi) < NodeDist(g.nodes, pt, j)
    {
      var n := g.nodes[k];
      var d := Abs(n.x - pt.x) + Abs(n.y - pt.y);
      if bestD.None? || d < bestD.value {
        bestD := Some(d);
        best := Some(n);
        bi := k;
      }
    }
    if best.Some? {
      assert FirstNearest(g.nodes, pt, bi);
    }
  }
}
