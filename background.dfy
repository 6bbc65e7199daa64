/** background.js (`SmartParkingBackground`): a lot laid out from the window
    size, an L-shaped route from a gate to a spot, and a route list that drops
    finished routes and appends a new one each time a route is spawned. */
module Background {
  import opened Common
  import opened SvgPath
  import opened ParkingLot

  /* ---------------- dimensions and lot ---------------- */

  /** `Math.max(measured, least)`: the measured size, never below the least. */
  function Clamp(measured: real, least: real): (c: real)
    ensures c >= least
    ensures c == measured || c == least
    ensures measured >= least ==> c == measured
  {
    Max(measured, least)
  }

  /** Padding 80, spots 40 x 20, aisles 60 wide: every cell is 100 x 100. */
  function BgGeo(height: real): Geo {
    Geo(80.0, 40.0, 20.0, 60.0, height)
  }

  /** `Math.floor((width - padding * 2) / (spotWidth + aisleWidth))` */
  function Cols(width: real): (n: nat)
    requires width >= 800.0
    ensures n >= 6
  {
    ((width - 160.0) / 100.0).Floor
  }

  /** `Math.floor((height - padding * 2) / (spotHeight * 2 + aisleWidth))` */
  function Rows(height: real): (n: nat)
    requires height >= 600.0
    ensures n >= 4
  {
    ((height - 160.0) / 100.0).Floor
  }

  /** The main gate, then the side gate when there are more than three columns. */
  function BgGates(width: real, g: Geo, rows: nat, cols: nat): (gates: seq<Gate>)
    ensures |gates| >= 1 && gates[0] == MainGateOf(g)
    ensures |gates| == 2 <==> cols > 3
    ensures |gates| == 2 ==> gates[1] == SideGateOf(width, g, rows)
  {
    [MainGateOf(g)] + (if cols > 3 then [SideGateOf(width, g, rows)] else [])
  }

  /** The size assumed before the container is first measured. */
  const InitialWidth: real := 1200.0
  const InitialHeight: real := 800.0

  /** The lot for a window of the given (clamped) size. */
  function BgLot(width: real, height: real): Lot
    requires width >= 800.0 && height >= 600.0
  {
    var g := BgGeo(height);
    var cols, rows := Cols(width), Rows(height);
    Lot(LotSpots(g, rows, cols), LotAisles(g, rows, cols) + Mains(g, cols), BgGates(width, g, rows, cols), cols, rows)
  }

  /** The `parkingLot` generator: the shared lot loops, then the gates. */
  method GenerateLot(width: real, height: real) returns (lot: Lot)
    requires width >= 800.0 && height >= 600.0
    ensures lot == BgLot(width, height)
  {
    var g := BgGeo(height);
    var cols := Cols(width);
    var rows := Rows(height);
    var spots, aisles := LayOut(g, rows, cols);
    var gates := [MainGateOf(g)];
    if cols > 3 {
      gates := gates + [SideGateOf(width, g, rows)];
    }
    lot := Lot(spots, aisles, gates, cols, rows);
  }

  /** A clamped window gives at least 6 x 4 cells, two spots per cell, one
      aisle segment per cell plus one main per column, the main gate first
      and the side gate second (always present, as there are at least six
      columns). */
  lemma BgLotShape(width: real, height: real)
    requires width >= 800.0 && height >= 600.0
    ensures var lot := BgLot(width, height);
            && lot.cols >= 6 && lot.rows >= 4
            && |lot.spots| == 2 * lot.rows * lot.cols
            && |lot.aisles| == lot.rows * lot.cols + lot.cols
            && |lot.gates| == 2 && lot.gates[0].id == MainGate && lot.gates[1].id == SideGate
  {
    var g := BgGeo(height);
    var cols, rows := Cols(width), Rows(height);
    LotSpotsCount(g, rows, cols);
    LotAislesShape(g, rows, cols);
    MainsShape(g, cols);
  }

  /* ---------------- findPath and the path string ---------------- */

  /** `findPath(start, end)`: across to the end's x at the start's height,
      then to the end; the corner is left out when the x's already agree. */
  function FindPath(start: Point, end: Point): (path: seq<Point>)
    ensures |path| == (if start.x != end.x then 3 else 2)
    ensures path[0] == start && path[|path| - 1] == end
    ensures AxisAligned(path)
  {
    if start.x != end.x then [start, Point(end.x, start.y), end] else [start, end]
  }

  /** The L-shaped route is exactly as long as the Manhattan distance between
      its ends: it never doubles back. */
  lemma FindPathLength(start: Point, end: Point)
    ensures TotalLength(FindPath(start, end)) == Manhattan(start, end)
  {
    var path := FindPath(start, end);
    assert path[1..][1..] == path[2..];
    if start.x != end.x {
      var m := Point(end.x, start.y);
      assert path[1..] == [m, end] && [m, end][1..] == [end];
      assert TotalLength([end]) == 0.0;
      assert TotalLength([m, end]) == Manhattan(m, end);
    } else {
      assert path[1..] == [end];
      assert TotalLength([end]) == 0.0;
    }
  }

  /** `${p.x} ${p.y}` for each point. */
  function XYs(path: seq<Point>, num: real -> string): (ts: seq<string>)
    ensures |ts| == |path|
    ensures forall i :: 0 <= i < |path| ==> ts[i] == XY(path[i], num)
  {
    seq(|path|, i requires 0 <= i < |path| => XY(path[i], num))
  }

  /** The route's `d` text: "M " and the points joined by " L ". */
  function PathString(path: seq<Point>, num: real -> string): string {
    "M " + Join(XYs(path, num), " L ")
  }

  lemma {:induction false} JoinIsLines(path: seq<Point>, num: real -> string)
    requires |path| >= 1
    ensures Join(XYs(path, num), " L ") == XY(path[0], num) + RestText(Lines(path[1..]), num)
    decreases |path|
  {
    var ts := XYs(path, num);
    if |path| == 1 {
      assert Lines(path[1..]) == [];
    } else {
      assert ts[1..] == XYs(path[1..], num);
      JoinIsLines(path[1..], num);
      var a, b := XY(path[0], num), XY(path[1], num);
      var rest := RestText(Lines(path[2..]), num);
      assert path[1..][1..] == path[2..];
      assert Join(ts[1..], " L ") == b + rest;
      assert Join(ts, " L ") == a + " L " + (b + rest);
      var ls := Lines(path[1..]);
      assert ls[0] == Line(path[1]) && ls[1..] == Lines(path[2..]);
      assert RestText(ls, num) == " " + ("L " + b) + rest;
      Regroup(a, b, rest);
    }
  }

  lemma Regroup(a: string, b: string, rest: string)
    ensures a + " L " + (b + rest) == a + (" " + ("L " + b) + rest)
  {
    assert " " + ("L " + b) == " L " + b;
  }

  /** The string a route carries is the straight-line path through its points. */
  lemma PathStringIsPolyline(path: seq<Point>, num: real -> string)
    requires |path| >= 1
    ensures PathString(path, num) == Render(Polyline(path), num)
  {
    var P := Polyline(path);
    assert P[0] == Move(path[0]) && P[1..] == Lines(path[1..]);
    JoinIsLines(path, num);
  }

  /* ---------------- routes ---------------- */

  /** `routeDuration * (1 + (Math.random() - 0.5) * routeVariance)` */
  function Duration(routeDuration: real, routeVariance: real, r: real): real {
    routeDuration * (1.0 + (r - 0.5) * routeVariance)
  }

  /** For a non-negative duration and variance the jittered duration lies in
      [d (1 - v / 2), d (1 + v / 2)], below the upper end when both are
      positive; with no variance it is exactly d. */
  lemma DurationBounds(d: real, v: real, r: real)
    requires d >= 0.0 && v >= 0.0 && IsDraw(r)
    ensures d * (1.0 - v / 2.0) <= Duration(d, v, r) <= d * (1.0 + v / 2.0)
    ensures d > 0.0 && v > 0.0 ==> Duration(d, v, r) < d * (1.0 + v / 2.0)
    ensures v == 0.0 ==> Duration(d, v, r) == d
  {
    var k := (r - 0.5) * v;
    MulNonNeg(r, v);
    MulNonNeg(1.0 - r, v);
    assert k == r * v - v / 2.0 && v / 2.0 - k == (1.0 - r) * v;
    assert Duration(d, v, r) == d + d * k;
    MulNonNeg(d, k + v / 2.0);
    MulNonNeg(d, v / 2.0 - k);
    if d > 0.0 && v > 0.0 {
      MulPos(1.0 - r, v);
      MulPos(d, v / 2.0 - k);
    }
  }

  /** The four draws one `createRoute` call consumes. */
  datatype BgDraws = BgDraws(gate: real, spot: real, duration: real, delay: real)

  predicate ValidDraws(d: BgDraws) {
    IsDraw(d.gate) && IsDraw(d.spot) && IsDraw(d.duration) && IsDraw(d.delay)
  }

  datatype BgRoute = BgRoute(id: nat, path: string, duration: real, delay: real)

  /** A route in the active list, with the time (ms) it was spawned. */
  datatype BgActive = BgActive(route: BgRoute, startTime: real)

  /** A route is kept while less than its duration plus two seconds has passed. */
  predicate Recent(now: real, a: BgActive) {
    now - a.startTime < a.route.duration * 1000.0 + 2000.0
  }

  /** `prev.filter(r => Date.now() - r.startTime < r.duration * 1000 + 2000)` */
  function KeepRecent(now: real, list: seq<BgActive>): (kept: seq<BgActive>)
    ensures |kept| <= |list|
    ensures forall a :: a in kept <==> a in list && Recent(now, a)
  {
    if |list| == 0 then []
    else (if Recent(now, list[0]) then [list[0]] else []) + KeepRecent(now, list[1..])
  }

  /** Filtering twice at the same time keeps the same list. */
  lemma {:induction false} KeepRecentIdempotent(now: real, list: seq<BgActive>)
    ensures KeepRecent(now, KeepRecent(now, list)) == KeepRecent(now, list)
  {
    if |list| > 0 {
      KeepRecentIdempotent(now, list[1..]);
      var rest := KeepRecent(now, list[1..]);
      if Recent(now, list[0]) {
        var kept := [list[0]] + rest;
        assert kept[0] == list[0] && kept[1..] == rest;
        calc {
          KeepRecent(now, kept);
          [list[0]] + KeepRecent(now, rest);
          kept;
        }
      } else {
        assert KeepRecent(now, list) == rest;
      }
    }
  }

  /** The filter keeps the routes in the order they were spawned: it keeps
      everything when every route is recent. */
  lemma {:induction false} KeepRecentAll(now: real, list: seq<BgActive>)
    requires forall a :: a in list ==> Recent(now, a)
    ensures KeepRecent(now, list) == list
  {
    if |list| > 0 {
      assert forall a :: a in list[1..] ==> a in list;
      KeepRecentAll(now, list[1..]);
      assert [list[0]] + list[1..] == list;
    }
  }

  /** The SVG background's state: the clamped window size, the lot derived
      from it, the route id counter and the active routes. */
  class Background {
    const routeCount: nat
    const routeDuration: real
    const routeVariance: real
    const isPaused: bool
    const num: real -> string

    var width: real
    var height: real
    var lot: Lot
    var prefersReducedMotion: bool
    var nextId: nat
    var activeRoutes: seq<BgActive>

    /** The size is clamped and the lot is the memoised lot of that size. */
    ghost predicate Valid()
      reads this
    {
      width >= 800.0 && height >= 600.0 && lot == BgLot(width, height)
    }

    /** Mount: the initial size until measured, no routes, counter at 0. */
    constructor (routeCount: nat, routeDuration: real, routeVariance: real, isPaused: bool, num: real -> string)
      ensures Valid()
      ensures this.routeCount == routeCount && this.routeDuration == routeDuration
      ensures this.routeVariance == routeVariance && this.isPaused == isPaused && this.num == num
      ensures width == InitialWidth && height == InitialHeight
      ensures !prefersReducedMotion && nextId == 0 && activeRoutes == []
    {
      this.routeCount := routeCount;
      this.routeDuration := routeDuration;
      this.routeVariance := routeVariance;
      this.isPaused := isPaused;
      this.num := num;
      var w, h := InitialWidth, InitialHeight;
      var initial := GenerateLot(w, h);
      width, height := w, h;
      prefersReducedMotion := false;
      nextId := 0;
      activeRoutes := [];
      lot := initial;
    }

    /** `updateDimensions`: clamp the measured size and lay the lot out again. */
    method UpdateDimensions(clientWidth: real, clientHeight: real)
      requires Valid()
      modifies this`width, this`height, this`lot
      ensures Valid()
      ensures width == Clamp(clientWidth, 800.0) && height == Clamp(clientHeight, 600.0)
    {
      var w, h := Max(clientWidth, 800.0), Max(clientHeight, 600.0);
      var newLot := GenerateLot(w, h);
      width, height, lot := w, h, newLot;
    }

    /** The `prefers-reduced-motion` media query changed. */
    method MediaChange(matches: bool)
      modifies this`prefersReducedMotion
      ensures prefersReducedMotion == matches
    {
      prefersReducedMotion := matches;
    }

    /** The route `createRoute` builds in `lot` with id `id` from the draws
        `d`: the path from the drawn gate to the drawn spot's aisle
        connection, the jittered duration and a delay below two seconds. */
    function RouteFor(lot: Lot, id: nat, d: BgDraws): BgRoute
      requires |lot.gates| > 0 && |lot.spots| > 0 && ValidDraws(d)
    {
      var gate := lot.gates[Pick(d.gate, |lot.gates|)];
      var spot := lot.spots[Pick(d.spot, |lot.spots|)];
      BgRoute(id, PathString(FindPath(Point(gate.x, gate.y), spot.aisleConnection), num),
              Duration(routeDuration, routeVariance, d.duration), d.delay * 2.0)
    }

    /** `spawned` holds the routes `createRoute` builds from the first draws, with ids from `id0`. */
    ghost predicate Built(lot: Lot, spawned: seq<BgRoute>, id0: nat, draws: seq<BgDraws>)
    {
      && |lot.gates| > 0 && |lot.spots| > 0
      && |spawned| <= |draws|
      && forall k :: 0 <= k < |spawned| ==> BuiltAt(lot, spawned, id0, draws, k)
    }

    /** The `k`-th spawned route is the one built from the `k`-th draws. */
    ghost predicate BuiltAt(lot: Lot, spawned: seq<BgRoute>, id0: nat, draws: seq<BgDraws>, k: nat)
    {
      && |lot.gates| > 0 && |lot.spots| > 0
      && k < |spawned| && k < |draws| && ValidDraws(draws[k])
      && spawned[k] == RouteFor(lot, id0 + k, draws[k])
    }

    lemma BuiltAppend(lot: Lot, spawned: seq<BgRoute>, id0: nat, draws: seq<BgDraws>, r: BgRoute)
      requires Built(lot, spawned, id0, draws) && |spawned| < |draws| && ValidDraws(draws[|spawned|])
      requires r == RouteFor(lot, id0 + |spawned|, draws[|spawned|])
      ensures Built(lot, spawned + [r], id0, draws)
    {
      var s := spawned + [r];
      forall k | 0 <= k < |s|
        ensures BuiltAt(lot, s, id0, draws, k)
      {
        if k < |spawned| {
          assert BuiltAt(lot, spawned, id0, draws, k);
          assert s[k] == spawned[k];
        }
      }
    }

    /** `createRoute()`: null without gates or spots; otherwise a route from a
        random gate to a random spot's aisle connection, taking the next id. */
    method CreateRoute(d: BgDraws) returns (route: Option<BgRoute>)
      requires ValidDraws(d)
      modifies this`nextId
      ensures route.None? <==> |lot.gates| == 0 || |lot.spots| == 0
      ensures route.None? ==> nextId == old(nextId)
      ensures route.Some? ==> nextId == old(nextId) + 1 && route.value == RouteFor(lot, old(nextId), d)
    {
      if |lot.gates| == 0 || |lot.spots| == 0 {
        return None;
      }
      var gate := lot.gates[Pick(d.gate, |lot.gates|)];
      var spot := lot.spots[Pick(d.spot, |lot.spots|)];
      var startPoint := Point(gate.x, gate.y);
      var endPoint := spot.aisleConnection;
      var path := FindPath(startPoint, endPoint);
      var pathString := PathString(path, num);
      route := Some(BgRoute(nextId, pathString, Duration(routeDuration, routeVariance, d.duration), d.delay * 2.0));
      nextId := nextId + 1;
    }

    /** `spawnRoute()` at time `now`: create a route; if there is one, drop the
        routes that are no longer recent and append it, stamped `now`. */
    method SpawnRoute(now: real, d: BgDraws) returns (ghost spawned: BgRoute)
      requires Valid() && ValidDraws(d)
      modifies this`nextId, this`activeRoutes
      ensures Valid()
      ensures nextId == old(nextId) + 1
      ensures |lot.gates| > 0 && |lot.spots| > 0 && spawned == RouteFor(lot, old(nextId), d)
      ensures activeRoutes == SpawnOne(old(activeRoutes), now, spawned)
    {
      BgLotShape(width, height);
      var route := CreateRoute(d);
      match route
      case Some(r) =>
        var filtered := KeepRecent(now, activeRoutes);
        activeRoutes := filtered + [BgActive(r, now)];
        spawned := r;
    }

    /** The interval callback every two seconds: spawn one route when the
        count it reads is below `routeCount`. `seenCount` is the length of the
        route list the callback reads; the effect that sets the interval up
        does nothing under reduced motion or while paused. */
    method Interval(now: real, seenCount: nat, d: BgDraws)
      requires Valid() && ValidDraws(d)
      modifies this`nextId, this`activeRoutes
      ensures Valid()
      ensures !prefersReducedMotion && !isPaused && seenCount < routeCount ==>
                && nextId == old(nextId) + 1 && |lot.gates| > 0 && |lot.spots| > 0
                && activeRoutes == SpawnOne(old(activeRoutes), now, RouteFor(lot, old(nextId), d))
      ensures !(!prefersReducedMotion && !isPaused && seenCount < routeCount) ==>
                nextId == old(nextId) && activeRoutes == old(activeRoutes)
    {
      if prefersReducedMotion || isPaused {
        return;
      }
      if seenCount < routeCount {
        ghost var spawned := SpawnRoute(now, d);
      }
    }

    /** The initial spawns: `routeCount` timeouts, the i-th firing at
        `start + i * 1000`. Each takes the next id and ends the list. */
    method InitialRoutes(start: real, draws: seq<BgDraws>) returns (ghost spawned: seq<BgRoute>)
      requires Valid() && |draws| == routeCount && forall i :: 0 <= i < |draws| ==> ValidDraws(draws[i])
      requires !prefersReducedMotion && !isPaused
      modifies this`nextId, this`activeRoutes
      ensures Valid()
      ensures nextId == old(nextId) + routeCount
      ensures |lot.gates| > 0 && |lot.spots| > 0
      ensures |spawned| == routeCount && Built(lot, spawned, old(nextId), draws)
      ensures activeRoutes == Spawns(old(activeRoutes), start, spawned)
      ensures routeCount > 0 ==>
                && |activeRoutes| >= 1
                && activeRoutes[|activeRoutes| - 1].startTime == start + (routeCount - 1) as real * 1000.0
                && activeRoutes[|activeRoutes| - 1].route.id == nextId - 1
    {
      BgLotShape(width, height);
      spawned := [];
      ghost var L := lot;
      var i := 0;
      while i < routeCount
        invariant Valid() && i <= routeCount
        invariant nextId == old(nextId) + i
        invariant lot == L
        invariant |spawned| == i && Built(L, spawned, old(nextId), draws)
        invariant activeRoutes == Spawns(old(activeRoutes), start, spawned)
      {
        var r := SpawnRoute(start + i as real * 1000.0, draws[i]);
        BuiltAppend(L, spawned, old(nextId), draws, r);
        SpawnsAppend(old(activeRoutes), start, spawned, r);
        spawned := spawned + [r];
        i := i + 1;
      }
      if routeCount > 0 {
        assert BuiltAt(L, spawned, old(nextId), draws, routeCount - 1);
        SpawnsLast(old(activeRoutes), start, spawned);
      }
    }
  }

  /** One spawn at `now`: the recent routes, then `r` stamped `now`. */
  function SpawnOne(routes: seq<BgActive>, now: real, r: BgRoute): seq<BgActive>
  {
    KeepRecent(now, routes) + [BgActive(r, now)]
  }

  /** The route list after spawning the routes `rs` in order at `start`,
      `start + 1000`, ... from the list `routes`: each spawn drops the routes
      no longer recent and appends its own. */
  ghost function Spawns(routes: seq<BgActive>, start: real, rs: seq<BgRoute>): seq<BgActive>
    decreases |rs|
  {
    if |rs| == 0 then routes
    else
      var n := |rs| - 1;
      var now := start + n as real * 1000.0;
      SpawnOne(Spawns(routes, start, rs[..n]), now, rs[n])
  }

  /** One more spawn, with `r` at `start + |rs| * 1000`. */
  lemma SpawnsAppend(routes: seq<BgActive>, start: real, rs: seq<BgRoute>, r: BgRoute)
    ensures Spawns(routes, start, rs + [r]) == SpawnOne(Spawns(routes, start, rs), start + |rs| as real * 1000.0, r)
  {
    assert (rs + [r])[..|rs|] == rs;
  }

  /** The last spawn ends the list, stamped with its own time. */
  lemma SpawnsLast(routes: seq<BgActive>, start: real, rs: seq<BgRoute>)
    requires |rs| > 0
    ensures var s := Spawns(routes, start, rs);
            |s| >= 1 && s[|s| - 1] == BgActive(rs[|rs| - 1], start + (|rs| - 1) as real * 1000.0)
  {
  }

  /** A route just spawned is recent at its own start whenever its duration
      is above -2 s, so a spawn at the same instant keeps it. */
  lemma FreshRouteRecent(r: BgRoute, now: real)
    requires r.duration > -2.0
    ensures Recent(now, BgActive(r, now))
  {
  }
}
