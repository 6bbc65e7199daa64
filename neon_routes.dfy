/** The route side of NeonVectorBackground.js: the SVG text of a route, how a
    route's start and goal are chosen, `createRoute`, and the route manager that
    prunes finished routes and tops the list up to the target count. */
module NeonRoutes {
  import opened Common
  import opened SvgPath
  import opened ParkingLot
  import opened NavGraph
  import opened NeonSearch

  /* ---------------- pathToD ---------------- */

  /** The "L x y" text of each point. */
  function LineTexts(pts: seq<Point>, num: real -> string): (ts: seq<string>)
    ensures |ts| == |pts|
    ensures forall i :: 0 <= i < |pts| ==> ts[i] == CmdText(Line(pts[i]), num)
  {
    seq(|pts|, i requires 0 <= i < |pts| => CmdText(Line(pts[i]), num))
  }

  /** `pathToD(pts)`: "M x y", one space, then the "L x y" texts joined by spaces. */
  function PathToD(pts: seq<Point>, num: real -> string): string {
    if |pts| == 0 then ""
    else CmdText(Move(pts[0]), num) + " " + Join(LineTexts(pts[1..], num), " ")
  }

  lemma {:induction false} JoinIsRestText(pts: seq<Point>, num: real -> string)
    requires |pts| >= 1
    ensures " " + Join(LineTexts(pts, num), " ") == RestText(Lines(pts), num)
    decreases |pts|
  {
    var ts := LineTexts(pts, num);
    assert Lines(pts)[1..] == Lines(pts[1..]);
    if |pts| > 1 {
      assert ts[1..] == LineTexts(pts[1..], num);
      JoinIsRestText(pts[1..], num);
    }
  }

  /** The text `pathToD` writes is the straight-line path through the points;
      a one-point route gets one trailing space (its "L" list is empty). */
  lemma PathToDIsPolyline(pts: seq<Point>, num: real -> string)
    ensures |pts| != 1 ==> PathToD(pts, num) == Render(Polyline(pts), num)
    ensures |pts| == 1 ==> PathToD(pts, num) == Render(Polyline(pts), num) + " "
  {
    if |pts| >= 1 {
      var P := Polyline(pts);
      assert P[0] == Move(pts[0]) && P[1..] == Lines(pts[1..]);
      assert Render(P, num) == CmdText(Move(pts[0]), num) + RestText(Lines(pts[1..]), num);
      if |pts| >= 2 {
        JoinIsRestText(pts[1..], num);
      } else {
        assert LineTexts(pts[1..], num) == [] && Lines(pts[1..]) == [];
      }
    }
  }

  /* ---------------- totalPathLength ---------------- */

  /** The fallback route [start, (goal.x, start.y), goal] is exactly as long as
      the Manhattan distance between its ends. */
  lemma FallbackLength(s: Point, t: Point)
    ensures AxisAligned([s, Point(t.x, s.y), t])
    ensures TotalLength([s, Point(t.x, s.y), t]) == Manhattan(s, t)
  {
    var m := Point(t.x, s.y);
    var pts := [s, m, t];
    assert pts[1..] == [m, t] && [m, t][1..] == [t];
    assert TotalLength([t]) == 0.0;
    assert TotalLength([m, t]) == Manhattan(m, t);
    assert TotalLength(pts) == Manhattan(s, m) + Manhattan(m, t);
    assert Manhattan(s, m) == Abs(s.x - t.x) && Manhattan(m, t) == Abs(s.y - t.y);
  }

  /* ---------------- routes ---------------- */

  /** The random draws one `createRoute` call consumes: whether to start inside
      the graph, which node or gate to start from, which spot to aim for, and
      the start jitter. */
  datatype Draws = Draws(coin: real, start: real, spot: real, jitter: real)

  predicate ValidDraws(d: Draws) {
    IsDraw(d.coin) && IsDraw(d.start) && IsDraw(d.spot) && IsDraw(d.jitter)
  }

  datatype Route = Route(id: nat, nodesPath: seq<Point>, d: string, length: real, duration: real, delay: real)

  /** A route in the active list, with the time (ms) it was started. */
  datatype Active = Active(route: Route, startTime: real)

  function GatePoint(gate: Gate): Point {
    Point(gate.x, gate.y)
  }

  /** `Math.max(1, Math.min(20, Math.floor(concurrentPaths)))` */
  function Target(concurrentPaths: real): (t: nat)
    ensures 1 <= t <= 20
    ensures 1 <= concurrentPaths.Floor <= 20 ==> t == concurrentPaths.Floor
    ensures concurrentPaths.Floor < 1 ==> t == 1
    ensures concurrentPaths.Floor > 20 ==> t == 20
  {
    var f := concurrentPaths.Floor;
    if f < 1 then 1 else if f > 20 then 20 else f
  }

  /** A route is kept while less than its duration plus 1.2 seconds has passed. */
  predicate Alive(now: real, a: Active) {
    now - a.startTime < (a.route.duration + 1.2) * 1000.0
  }

  /** `prune(now, list)`: the live routes, in their order. */
  function {:induction false} Prune(now: real, list: seq<Active>): (kept: seq<Active>)
    ensures |kept| <= |list|
    ensures forall a :: a in kept <==> a in list && Alive(now, a)
  {
    if |list| == 0 then []
    else
      var rest := Prune(now, list[1..]);
      assert forall a :: a in list <==> a == list[0] || a in list[1..];
      if Alive(now, list[0]) then [list[0]] + rest else rest
  }

  /** Pruning twice at the same time is pruning once. */
  lemma {:induction false} PruneIdempotent(now: real, list: seq<Active>)
    ensures Prune(now, Prune(now, list)) == Prune(now, list)
  {
    if |list| > 0 {
      PruneIdempotent(now, list[1..]);
      var rest := Prune(now, list[1..]);
      if Alive(now, list[0]) {
        assert ([list[0]] + rest)[1..] == rest;
      }
    }
  }

  /** A route pruned at one time stays pruned later: pruning at `now` and then
      at a later time is pruning at the later time. */
  lemma {:induction false} PruneLater(now: real, later: real, list: seq<Active>)
    requires now <= later
    ensures Prune(later, Prune(now, list)) == Prune(later, list)
  {
    if |list| > 0 {
      PruneLater(now, later, list[1..]);
      var rest := Prune(now, list[1..]);
      if Alive(now, list[0]) {
        assert ([list[0]] + rest)[1..] == rest;
      }
    }
  }

  /** Pruning keeps order: it works piecewise on a concatenation. */
  lemma {:induction false} PruneAppend(now: real, a: seq<Active>, b: seq<Active>)
    ensures Prune(now, a + b) == Prune(now, a) + Prune(now, b)
  {
    if |a| == 0 {
      assert a + b == b;
    } else {
      assert (a + b)[0] == a[0];
      assert (a + b)[1..] == a[1..] + b;
      PruneAppend(now, a[1..], b);
    }
  }

  /** The start node `chooseStartKey` gives for draws `coin` and `pick`: a
      random node when internal gates are allowed and the coin is below 0.7;
      otherwise the node nearest a random gate, or the first node when the lot
      has no gates. */
  ghost predicate StartRule(g: Graph, lot: Lot, allowInternalGates: bool, coin: real, pick: real, s: Point)
    requires IsDraw(pick)
  {
    if allowInternalGates && coin < 0.7 then
      |g.nodes| > 0 && s == g.nodes[Pick(pick, |g.nodes|)]
    else if |lot.gates| > 0 then
      exists i: nat :: FirstNearest(g.nodes, GatePoint(lot.gates[Pick(pick, |lot.gates|)]), i) && s == g.nodes[i]
    else
      |g.nodes| > 0 && s == g.nodes[0]
  }

  /** A route's nodes from s to t: either a path through the graph or the
      L-shaped fallback, and in both cases one axis per step. */
  ghost predicate SearchedPath(g: Graph, p: seq<Point>, s: Point, t: Point) {
    && |p| >= 2 && p[0] == s && p[|p| - 1] == t
    && (ValidPath(g, p, s, t) || p == [s, Point(t.x, s.y), t])
    && AxisAligned(p)
  }

  /** What `createRoute` promises about a route built from draws `d`. */
  ghost predicate RouteShape(g: Graph, lot: Lot, allowInternalGates: bool, num: real -> string, r: Route, d: Draws)
    requires |lot.spots| > 0 && ValidDraws(d)
  {
    var p := r.nodesPath;
    && |p| >= 2 && p[0] in g.nodes && p[|p| - 1] in g.nodes
    // the start is the one the start rule picks from the coin and start draws
    && StartRule(g, lot, allowInternalGates, d.coin, d.start, p[0])
    // the goal is the node nearest the chosen spot's aisle connection
    && (exists i: nat :: FirstNearest(g.nodes, lot.spots[Pick(d.spot, |lot.spots|)].aisleConnection, i)
                         && g.nodes[i] == p[|p| - 1])
    && SearchedPath(g, p, p[0], p[|p| - 1])
    && r.d == PathToD(p, num)
    && r.length == TotalLength(p)
    && r.duration == 1.0
    && r.delay == 0.05 + d.jitter
  }

  /** A search path follows graph edges, and graph edges run along one axis. */
  lemma ValidPathAxisAligned(g: Graph, p: seq<Point>, s: Point, t: Point)
    requires AxisEdges(g) && ValidPath(g, p, s, t)
    ensures AxisAligned(p)
  {
    forall i | 0 <= i < |p| - 1 ensures p[i].x == p[i + 1].x || p[i].y == p[i + 1].y {
      assert HasEdge(g, p[i], p[i + 1]);
      var e :| e in g.neighbors[p[i]] && e.key == p[i + 1];
    }
  }

  /** The route manager: the lot and its graph, the settings, the active route
      list (component state) and the route id counter (a ref). */
  class RouteManager {
    const lot: Lot
    const g: Graph
    const allowInternalGates: bool
    const target: nat
    const fuel: nat              // search rounds allowed per route
    const num: real -> string    // how numbers are printed
    var routes: seq<Active>
    var nextId: nat

    constructor (lot: Lot, allowInternalGates: bool, concurrentPaths: real, fuel: nat, num: real -> string)
      ensures this.lot == lot && this.allowInternalGates == allowInternalGates
      ensures this.fuel == fuel && this.num == num
      ensures g == NavGraphOf(lot.aisles) && WellFormed(g) && target == Target(concurrentPaths)
      ensures routes == [] && nextId == 0
    {
      this.lot := lot;
      var graph := BuildGraph(lot.aisles);
      this.g := graph;
      this.allowInternalGates := allowInternalGates;
      this.target := Target(concurrentPaths);
      this.fuel := fuel;
      this.num := num;
      routes := [];
      nextId := 0;
    }

    /** `chooseStartKey()`: with internal gates allowed and a coin below 0.7,
        a random node; otherwise the node nearest a random gate; with no gates,
        the first node; with no nodes, none. */
    method ChooseStartKey(coin: real, pick: real) returns (key: Option<Point>)
      requires IsDraw(coin) && IsDraw(pick)
      ensures key.None? <==> |g.nodes| == 0
      ensures key.Some? ==> key.value in g.nodes
      ensures allowInternalGates && |g.nodes| > 0 && coin < 0.7 ==> key == Some(g.nodes[Pick(pick, |g.nodes|)])
      ensures !(allowInternalGates && coin < 0.7) && |lot.gates| > 0 && |g.nodes| > 0 ==>
                exists i: nat :: FirstNearest(g.nodes, GatePoint(lot.gates[Pick(pick, |lot.gates|)]), i) && key == Some(g.nodes[i])
      ensures !(allowInternalGates && coin < 0.7) && |lot.gates| == 0 && |g.nodes| > 0 ==> key == Some(g.nodes[0])
      ensures key.Some? ==> StartRule(g, lot, allowInternalGates, coin, pick, key.value)
    {
      if allowInternalGates && |g.nodes| > 0 && coin < 0.7 {
        return Some(g.nodes[Pick(pick, |g.nodes|)]);
      }
      if |lot.gates| > 0 {
        var gate := lot.gates[Pick(pick, |lot.gates|)];
        key := NearestNodeKey(g, GatePoint(gate));
        return;
      }
      if |g.nodes| > 0 { return Some(g.nodes[0]); }
      return None;
    }

    /** The k-th route of one `topUp()` batch: the route `createRoute` builds
        from the draws `d`, with the k-th id after `id0`, starting k * 100 ms
        after `now` and waiting k * 0.12 s more than its own delay. */
    ghost predicate BatchRoute(a: Active, k: nat, now: real, id0: int, d: Draws) {
      && a.startTime == now + k as real * 100.0
      && a.route.id == id0 + k
      && a.route.delay == 0.05 + d.jitter + k as real * 0.12
      && |lot.spots| > 0 && ValidDraws(d)
      && RouteShape(g, lot, allowInternalGates, num, a.route.(delay := 0.05 + d.jitter), d)
    }

    /** The routes of one batch, the k-th built from `draws[k]`. */
    ghost predicate Staggered(additions: seq<Active>, now: real, id0: int, draws: seq<Draws>) {
      && |additions| <= |draws|
      && forall k :: 0 <= k < |additions| ==> BatchRoute(additions[k], k, now, id0, draws[k])
    }

    lemma StaggeredAppend(additions: seq<Active>, now: real, id0: int, draws: seq<Draws>, a: Active)
      requires Staggered(additions, now, id0, draws) && |additions| < |draws|
      requires BatchRoute(a, |additions|, now, id0, draws[|additions|])
      ensures Staggered(additions + [a], now, id0, draws)
    {
      var s := additions + [a];
      forall k | 0 <= k < |s| ensures BatchRoute(s[k], k, now, id0, draws[k]) {
        if k < |additions| { assert s[k] == additions[k]; }
      }
    }

    /** The search in `createRoute` and its fallback: the A* path when it
        has two or more nodes, otherwise the L-shaped
        [start, (goal.x, start.y), goal]. */
    method SearchOrFallback(startKey: Point, goalKey: Point) returns (nodesPath: seq<Point>)
      requires WellFormed(g)
      ensures SearchedPath(g, nodesPath, startKey, goalKey)
    {
      var found := AStar(g, Some(startKey), Some(goalKey), fuel);
      if found.None? || |found.value| < 2 {
        nodesPath := [startKey, Point(goalKey.x, startKey.y), goalKey];
        FallbackLength(startKey, goalKey);
      } else {
        nodesPath := found.value;
        WellFormedAxisEdges(g);
        ValidPathAxisAligned(g, nodesPath, startKey, goalKey);
      }
    }

    /** `createRoute()`: none when the graph or the lot is empty; otherwise a
        route from the chosen start to the node nearest a random spot, with the
        next id. When the search finds no path of two or more nodes, the route
        is the L-shaped [start, (goal.x, start.y), goal]. */
    method CreateRoute(d: Draws) returns (r: Option<Route>)
      requires WellFormed(g) && ValidDraws(d)
      modifies this`nextId
      ensures r.None? <==> |g.nodes| == 0 || |lot.spots| == 0
      ensures r.None? ==> nextId == old(nextId)
      ensures r.Some? ==> r.value.id == old(nextId) && nextId == old(nextId) + 1
      ensures r.Some? ==> RouteShape(g, lot, allowInternalGates, num, r.value, d)
    {
      if |g.nodes| == 0 || |lot.spots| == 0 { return None; }
      var startKey := ChooseStartKey(d.coin, d.start);
      var spot := lot.spots[Pick(d.spot, |lot.spots|)];
      var goalKey := NearestNodeKey(g, spot.aisleConnection);
      var nodesPath := SearchOrFallback(startKey.value, goalKey.value);
      var route := Route(nextId, nodesPath, PathToD(nodesPath, num), TotalLength(nodesPath), 1.0, 0.05 + d.jitter);
      nextId := nextId + 1;
      r := Some(route);
    }

    /** The periodic safety prune. */
    method PruneTick(now: real)
      modifies this`routes
      ensures routes == Prune(now, old(routes))
    {
      routes := Prune(now, routes);
    }

    /** The `for` loop of `topUp()`: `count` calls of `createRoute`; the i-th
        route starts i * 100 ms from now with i * 0.12 s extra delay. */
    method CreateBatch(now: real, count: nat, draws: seq<Draws>) returns (additions: seq<Active>)
      requires WellFormed(g)
      requires |draws| >= count && forall i :: 0 <= i < |draws| ==> ValidDraws(draws[i])
      modifies this`nextId
      ensures |additions| == (if |g.nodes| > 0 && |lot.spots| > 0 then count else 0)
      ensures nextId == old(nextId) + |additions|
      ensures Staggered(additions, now, old(nextId), draws)
    {
      WellFormedAxisEdges(g);
      additions := [];
      for i := 0 to count
        invariant |additions| == (if |g.nodes| > 0 && |lot.spots| > 0 then i else 0)
        invariant nextId == old(nextId) + |additions|
        invariant Staggered(additions, now, old(nextId), draws)
      {
        var route := CreateRoute(draws[i]);
        if route.Some? {
          var r := route.value;
          var a := Active(r.(delay := r.delay + i as real * 0.12), now + i as real * 100.0);
          assert a.route.(delay := 0.05 + draws[i].jitter) == r;
          StaggeredAppend(additions, now, old(nextId), draws, a);
          additions := additions + [a];
        }
      }
    }

    /** `topUp()`: drop finished routes, then add new ones for the deficit. */
    method TopUp(now: real, draws: seq<Draws>)
      requires WellFormed(g)
      requires |draws| >= target && forall i :: 0 <= i < |draws| ==> ValidDraws(draws[i])
      modifies this`routes, this`nextId
      ensures var kept := Prune(now, old(routes));
              && |routes| >= |kept| && routes[..|kept|] == kept
              && (|kept| >= target || |g.nodes| == 0 || |lot.spots| == 0 ==> routes == kept)
              && (|kept| < target && |g.nodes| > 0 && |lot.spots| > 0 ==> |routes| == target)
              && nextId == old(nextId) + (|routes| - |kept|)
              && Staggered(routes[|kept|..], now, old(nextId), draws)
    {
      var filtered := Prune(now, routes);
      var deficit := target - |filtered|;
      if deficit <= 0 {
        routes := filtered;
        return;
      }
      var additions := CreateBatch(now, deficit, draws);
      routes := filtered + additions;
      assert routes[|filtered|..] == additions;
    }
  }
}
