/** ParkingLotAnimation.js: a fixed 20 x 15 grid of 40-pixel cells with roads,
    randomly kept spots, a grid A* between two spots, and the route-tracing
    animation.

    The spot generator and the progress tick are in module GridLot.

    The A* is modelled as written. Its score lookups use `map.get(k) || Infinity`,
    and `||` also replaces a stored score of 0, which is the start's score; so
    the start is treated as unreachable, no neighbour is ever relaxed, and the
    search answers null for every pair of distinct cells. `FindPathFixed` is
    the search with `?? Infinity`, and it is the one the animation uses. */
module GridAnimation {
  import opened Common
  import opened SvgPath
  import opened GridLot

  const GridSize := 40
  const LotWidth := 20     // cells
  const LotHeight := 15    // cells

  /** 40-pixel cells, a 20 x 15 lot, 3 x 2 spots. */
  const Geo := GridGeo(GridSize, LotWidth, LotHeight, 3.0, 2.0)

  /** `heuristic(a, b)`: Manhattan distance between cells. */
  function Heuristic(a: Cell, b: Cell): (h: nat)
    ensures h == 0 <==> a == b
  {
    IAbs(a.row - b.row) + IAbs(a.col - b.col)
  }

  predicate InLot(c: Cell) {
    0 <= c.row < LotHeight && 0 <= c.col < LotWidth
  }

  /* ---------------- getNeighbors ---------------- */

  /** Up, down, left, right, in that order. */
  const Directions: seq<Cell> := [Cell(-1, 0), Cell(1, 0), Cell(0, -1), Cell(0, 1)]

  /** `getNeighbors(node)`: the in-lot, off-road cells one step away. */
  method GetNeighbors(node: Cell) returns (ns: seq<Cell>)
    ensures |ns| <= 4
    ensures forall c :: c in ns <==> Heuristic(node, c) == 1 && InLot(c) && !OnRoad(c)
  {
    ns := [];
    for i := 0 to |Directions|
      invariant |ns| <= i
      invariant forall c :: c in ns <==>
                  exists k :: 0 <= k < i && c == Cell(node.row + Directions[k].row, node.col + Directions[k].col)
                              && InLot(c) && !OnRoad(c)
    {
      var dir := Directions[i];
      var newRow, newCol := node.row + dir.row, node.col + dir.col;
      if 0 <= newRow < LotHeight && 0 <= newCol < LotWidth {
        if newRow % 3 != 2 && newCol % 4 != 2 {
          ns := ns + [Cell(newRow, newCol)];
        }
      }
    }
    forall c | Heuristic(node, c) == 1
      ensures exists k :: 0 <= k < 4 && c == Cell(node.row + Directions[k].row, node.col + Directions[k].col)
    {
      if c.row < node.row { assert c == Cell(node.row + Directions[0].row, node.col + Directions[0].col); }
      else if c.row > node.row { assert c == Cell(node.row + Directions[1].row, node.col + Directions[1].col); }
      else if c.col < node.col { assert c == Cell(node.row + Directions[2].row, node.col + Directions[2].col); }
      else { assert c == Cell(node.row + Directions[3].row, node.col + Directions[3].col); }
    }
  }

  /* ---------------- findPath ---------------- */

  /** A score after `|| Infinity`. */
  datatype Score = Fin(n: int) | Inf

  /** `v || Infinity` for a looked-up score: a missing score and a score of 0 are both Infinity. */
  function OrInf(v: Option<int>): (s: Score)
    ensures s.Inf? <==> v.None? || v.value == 0
  {
    if v.None? || v.value == 0 then Inf else Fin(v.value)
  }

  function Plus(s: Score, k: int): Score {
    if s.Inf? then Inf else Fin(s.n + k)
  }

  /** `<` with Infinity above every number. */
  predicate Less(a: Score, b: Score) {
    a.Fin? && (b.Inf? || a.n < b.n)
  }

  function Lookup<K, V>(m: map<K, V>, k: K): Option<V> {
    if k in m then Some(m[k]) else None
  }

  /** The score a cell's stored f score reads as through `score`. */
  function ScoreOf(score: Option<int> -> Score, fScore: map<Cell, int>, node: Cell): Score {
    score(Lookup(fScore, node))
  }

  /** One step of the `reduce` that picks the open cell with the lowest f
      score, reading scores through `score`: a tie keeps `lowest`. */
  function PickLower(score: Option<int> -> Score, fScore: map<Cell, int>, lowest: Cell, node: Cell): Cell {
    if Less(ScoreOf(score, fScore, node), ScoreOf(score, fScore, lowest)) then node else lowest
  }

  /** `[lowest] + rest` reduced with `PickLower`: a cell of the list that no
      other cell beats, and the seed unless something beats the seed. */
  function {:induction false} ReduceLowest(score: Option<int> -> Score, fScore: map<Cell, int>,
                                           lowest: Cell, rest: seq<Cell>): (c: Cell)
    ensures c == lowest || c in rest
    ensures forall x | x in rest :: !Less(ScoreOf(score, fScore, x), ScoreOf(score, fScore, c))
    ensures c == lowest || Less(ScoreOf(score, fScore, c), ScoreOf(score, fScore, lowest))
    decreases |rest|
  {
    if |rest| == 0 then lowest
    else
      assert rest == [rest[0]] + rest[1..];
      ReduceLowest(score, fScore, PickLower(score, fScore, lowest, rest[0]), rest[1..])
  }

  /** Ties keep the earlier cell: a cell of `rest` scoring no worse than the
      result is preceded or matched by the result's own place in the list. */
  lemma {:induction false} ReduceLowestFirst(score: Option<int> -> Score, fScore: map<Cell, int>,
                                             lowest: Cell, rest: seq<Cell>, j: nat)
    requires j < |rest|
    requires !Less(ScoreOf(score, fScore, ReduceLowest(score, fScore, lowest, rest)), ScoreOf(score, fScore, rest[j]))
    ensures var c := ReduceLowest(score, fScore, lowest, rest);
            c == lowest || c in rest[..j + 1]
    decreases |rest|
  {
    var c := ReduceLowest(score, fScore, lowest, rest);
    var next := PickLower(score, fScore, lowest, rest[0]);
    assert c == ReduceLowest(score, fScore, next, rest[1..]);
    if j == 0 {
      assert rest[..1] == [rest[0]];
    } else {
      assert rest[1..][j - 1] == rest[j];
      ReduceLowestFirst(score, fScore, next, rest[1..], j - 1);
      assert rest[1..][..j] == rest[1..j + 1];
      assert rest[..j + 1] == [rest[0]] + rest[1..j + 1];
    }
  }

  function IndexOf(s: seq<Cell>, c: Cell): (i: nat)
    requires c in s
    ensures i < |s| && s[i] == c
  {
    if s[0] == c then 0 else 1 + IndexOf(s[1..], c)
  }

  /** `findPath(start, end)` as written: the single centre point when the two
      cells are the same, and null otherwise. */
  method FindPath(start: Cell, end: Cell) returns (path: Option<seq<Point>>)
    ensures start == end ==> path == Some([Centre(Geo, end)])
    ensures start != end ==> path.None?
  {
    var openSet := [start];
    var cameFrom: map<Cell, Cell> := map[];
    var gScore: map<Cell, int> := map[start := 0];
    var fScore: map<Cell, int> := map[start := Heuristic(start, end)];
    while |openSet| > 0
      invariant openSet == [start] || openSet == []
      invariant start == end ==> openSet == [start]
      invariant cameFrom == map[] && gScore == map[start := 0]
      decreases |openSet|
    {
      var current := ReduceLowest(OrInf, fScore, openSet[0], openSet[1..]);
      if current == end {
        var p: seq<Point> := [];
        var cur: Option<Cell> := Some(current);
        while cur.Some?
          invariant cur.Some? ==> cur.value == end && p == []
          invariant cur.None? ==> p == [Centre(Geo, end)]
          decreases if cur.Some? then 1 else 0
        {
          p := [Centre(Geo, cur.value)] + p;
          cur := Lookup(cameFrom, cur.value);
        }
        return Some(p);
      }
      var at := IndexOf(openSet, current);
      openSet := openSet[..at] + openSet[at + 1..];
      var neighbors := GetNeighbors(current);
      for i := 0 to |neighbors|
        invariant current == start && openSet == []
        invariant cameFrom == map[] && gScore == map[start := 0]
      {
        var neighbor := neighbors[i];
        var tentativeG := Plus(OrInf(Lookup(gScore, current)), 1);
        if Less(tentativeG, OrInf(Lookup(gScore, neighbor))) {
          match tentativeG
          case Fin(t) =>
            cameFrom := cameFrom[neighbor := current];
            gScore := gScore[neighbor := t];
            fScore := fScore[neighbor := t + Heuristic(neighbor, end)];
            if neighbor !in openSet { openSet := openSet + [neighbor]; }
          case Inf =>
        }
      }
    }
    return None;
  }


  /* ---------------- findPath, corrected ---------------- */

  /** `v ?? Infinity`: only a missing score is Infinity. */
  function OrNullish(v: Option<int>): (s: Score)
    ensures s.Inf? <==> v.None?
    ensures v.Some? ==> s == Fin(v.value)
  {
    if v.None? then Inf else Fin(v.value)
  }

  /** A cell a route may step onto. */
  predicate Passable(c: Cell) {
    InLot(c) && !OnRoad(c)
  }

  /** One move of a route: to a passable cell one step away. */
  predicate Step(from: Cell, to: Cell) {
    Heuristic(from, to) == 1 && Passable(to)
  }

  /** A route over the grid: from `start` to `end`, one step at a time, onto
      passable cells only. */
  ghost predicate GridWalk(cells: seq<Cell>, start: Cell, end: Cell) {
    && |cells| >= 1 && cells[0] == start && cells[|cells| - 1] == end
    && Steps(cells)
  }

  /** Each cell of the run is one step from the one before it. */
  predicate Steps(cells: seq<Cell>) {
    forall i :: 0 <= i < |cells| - 1 ==> Step(cells[i], cells[i + 1])
  }

  /** A step onto the head of a run extends it. */
  lemma PrependStep(c: Cell, cells: seq<Cell>)
    requires Steps(cells) && (cells != [] ==> Step(c, cells[0]))
    ensures Steps([c] + cells)
  {
    var longer := [c] + cells;
    forall i | 0 <= i < |longer| - 1 ensures Step(longer[i], longer[i + 1]) {
      if i > 0 {
        assert longer[i] == cells[i - 1] && longer[i + 1] == cells[i];
      }
    }
  }

  /** The pixel centres of a run of cells. */
  function Centres(cells: seq<Cell>): (pts: seq<Point>)
    ensures |pts| == |cells| && forall i :: 0 <= i < |cells| ==> pts[i] == Centre(Geo, cells[i])
  {
    seq(|cells|, i requires 0 <= i < |cells| => Centre(Geo, cells[i]))
  }

  lemma CentresPrepend(c: Cell, cells: seq<Cell>)
    ensures Centres([c] + cells) == [Centre(Geo, c)] + Centres(cells)
  {
    var longer := [c] + cells;
    assert forall i :: 0 < i < |longer| ==> longer[i] == cells[i - 1];
  }

  /** What the search maps satisfy: the start has score 0 and no
      predecessor, every other scored cell has one, one step away, passable,
      with a smaller score; scores are non-negative and open cells are scored. */
  ghost predicate SearchInv(start: Cell, openSet: seq<Cell>, cameFrom: map<Cell, Cell>, gScore: map<Cell, int>) {
    && start in gScore && gScore[start] == 0 && start !in cameFrom
    && (forall k :: k in gScore ==> gScore[k] >= 0 && (k == start || k in cameFrom))
    && (forall k :: k in cameFrom ==>
          && k in gScore && cameFrom[k] in gScore && Step(cameFrom[k], k)
          && gScore[cameFrom[k]] < gScore[k])
    && (forall k :: k in openSet ==> k in gScore)
  }

  /** Follows the predecessors back from `goal` to the start, collecting centres. */
  method TracePath(start: Cell, goal: Cell, openSet: seq<Cell>, cameFrom: map<Cell, Cell>, gScore: map<Cell, int>)
    returns (path: seq<Point>, ghost cells: seq<Cell>)
    requires SearchInv(start, openSet, cameFrom, gScore) && goal in gScore
    ensures GridWalk(cells, start, goal) && path == Centres(cells)
    ensures goal !in cameFrom ==> cells == [goal] && path == [Centre(Geo, goal)]
  {
    path, cells := [], [];
    var cur: Option<Cell> := Some(goal);
    while cur.Some?
      invariant cur.Some? ==> cur.value in gScore
      invariant cur.Some? && cells == [] ==> cur.value == goal
      invariant cur.Some? && cells != [] ==> Step(cur.value, cells[0])
      invariant cur.None? ==> cells != [] && cells[0] == start
      invariant cells != [] ==> cells[|cells| - 1] == goal
      invariant Steps(cells)
      invariant goal !in cameFrom && cells != [] ==> cells == [goal]
      invariant path == Centres(cells)
      decreases if cur.Some? then gScore[cur.value] + 1 else 0
    {
      var c := cur.value;
      PrependStep(c, cells);
      CentresPrepend(c, cells);
      path := [Centre(Geo, c)] + path;
      cells := [c] + cells;
      cur := Lookup(cameFrom, c);
    }
  }

  /** The corrected search: `findPath` with `?? Infinity` in place of
      `|| Infinity`, so the start's score of 0 counts as a score. The search
      loop runs at most `fuel` rounds. Any route it returns walks from the
      start cell to the end cell over passable cells, one step at a time. */
  method FindPathFixed(start: Cell, end: Cell, fuel: nat) returns (path: Option<seq<Point>>, ghost cells: seq<Cell>)
    ensures path.Some? ==> GridWalk(cells, start, end) && path.value == Centres(cells)
    ensures start == end && fuel > 0 ==> path == Some([Centre(Geo, end)])
  {
    var openSet := [start];
    var cameFrom: map<Cell, Cell> := map[];
    var gScore: map<Cell, int> := map[start := 0];
    var fScore: map<Cell, int> := map[start := Heuristic(start, end)];
    var budget := fuel;
    cells := [];
    while |openSet| > 0
      invariant SearchInv(start, openSet, cameFrom, gScore)
      invariant budget == fuel ==> openSet == [start] && cameFrom == map[]
      invariant start == end ==> budget == fuel
      decreases budget
    {
      if budget == 0 { return None, cells; }
      budget := budget - 1;
      var current := ReduceLowest(OrNullish, fScore, openSet[0], openSet[1..]);
      if current == end {
        var p;
        p, cells := TracePath(start, end, openSet, cameFrom, gScore);
        return Some(p), cells;
      }
      var at := IndexOf(openSet, current);
      openSet := openSet[..at] + openSet[at + 1..];
      var neighbors := GetNeighbors(current);
      for i := 0 to |neighbors|
        invariant SearchInv(start, openSet, cameFrom, gScore) && current in gScore
      {
        var neighbor := neighbors[i];
        assert neighbor in neighbors;
        var tentativeG := Plus(OrNullish(Lookup(gScore, current)), 1);
        if Less(tentativeG, OrNullish(Lookup(gScore, neighbor))) {
          match tentativeG
          case Fin(t) =>
            RelaxKeepsInv(start, current, neighbor, t, openSet, cameFrom, gScore);
            cameFrom := cameFrom[neighbor := current];
            gScore := gScore[neighbor := t];
            fScore := fScore[neighbor := t + Heuristic(neighbor, end)];
            if neighbor !in openSet { openSet := openSet + [neighbor]; }
          case Inf =>
        }
      }
    }
    return None, cells;
  }

  /** One relaxation keeps the search invariant: `nb` is a passable cell
      one step from `current`, reached with a score above `current`'s and
      below any score `nb` had. */
  lemma RelaxKeepsInv(start: Cell, current: Cell, nb: Cell, t: int,
                      openSet: seq<Cell>, cameFrom: map<Cell, Cell>, gScore: map<Cell, int>)
    requires SearchInv(start, openSet, cameFrom, gScore)
    requires current in gScore && Step(current, nb)
    requires t > gScore[current] && (nb !in gScore || t < gScore[nb])
    ensures var openSet' := if nb in openSet then openSet else openSet + [nb];
            SearchInv(start, openSet', cameFrom[nb := current], gScore[nb := t])
  {
    var cameFrom', gScore' := cameFrom[nb := current], gScore[nb := t];
    assert nb != start;
    forall k | k in cameFrom'
      ensures gScore'[cameFrom'[k]] < gScore'[k]
    {
      if k != nb && cameFrom[k] == nb {
        assert gScore[nb] < gScore[k];
      }
    }
  }

  /* ---------------- roads ---------------- */

  /** A horizontal road along pixel row y: one point per cell column. */
  function HRoad(y: int): (pts: seq<Point>)
    ensures |pts| == LotWidth
  {
    seq(LotWidth, i => Point((i * GridSize) as real, y as real))
  }

  /** A vertical road along pixel column x: one point per cell row. */
  function VRoad(x: int): (pts: seq<Point>)
    ensures |pts| == LotHeight
  {
    seq(LotHeight, i => Point(x as real, (i * GridSize) as real))
  }

  /** The road loops: the entrance road along the top edge, then horizontal
      roads at rows 2, 5, 8, 11, then vertical roads at columns 2, 6, 10, 14. */
  method GenerateRoads() returns (roads: seq<seq<Point>>)
    ensures |roads| == 9
    ensures roads[0] == HRoad(0)
    ensures forall k :: 0 <= k < 4 ==> roads[1 + k] == HRoad((2 + 3 * k) * GridSize)
    ensures forall k :: 0 <= k < 4 ==> roads[5 + k] == VRoad((2 + 4 * k) * GridSize)
  {
    var entrance: seq<Point> := [];
    for i := 0 to LotWidth
      invariant entrance == HRoad(0)[..i]
    {
      entrance := entrance + [Point((i * GridSize) as real, 0.0)];
    }
    roads := [entrance];
    var row := 2;
    while row < LotHeight - 2
      invariant 2 <= row <= 14 && (row - 2) % 3 == 0
      invariant |roads| == 1 + (row - 2) / 3 && roads[0] == HRoad(0)
      invariant forall k :: 0 <= k < (row - 2) / 3 ==> roads[1 + k] == HRoad((2 + 3 * k) * GridSize)
    {
      var road: seq<Point> := [];
      for i := 0 to LotWidth
        invariant road == HRoad(row * GridSize)[..i]
      {
        road := road + [Point((i * GridSize) as real, (row * GridSize) as real)];
      }
      roads := roads + [road];
      row := row + 3;
    }
    var col := 2;
    while col < LotWidth - 2
      invariant 2 <= col <= 18 && (col - 2) % 4 == 0
      invariant |roads| == 5 + (col - 2) / 4 && roads[0] == HRoad(0)
      invariant forall k :: 0 <= k < 4 ==> roads[1 + k] == HRoad((2 + 3 * k) * GridSize)
      invariant forall k :: 0 <= k < (col - 2) / 4 ==> roads[5 + k] == VRoad((2 + 4 * k) * GridSize)
    {
      var road: seq<Point> := [];
      for i := 0 to LotHeight
        invariant road == VRoad(col * GridSize)[..i]
      {
        road := road + [Point((col * GridSize) as real, (i * GridSize) as real)];
      }
      roads := roads + [road];
      col := col + 4;
    }
  }

  /** The road rows are exactly the spot rows the generator skips; the road
      columns are the skipped spot columns except column 18, which is skipped
      and left empty without a road. */
  lemma RoadsAndSkippedCells()
    ensures (set k | 0 <= k < 4 :: 2 + 3 * k) == (set r | 1 <= r <= 13 && r % 3 == 2)
    ensures (set k | 0 <= k < 4 :: 2 + 4 * k) + {18} == (set c | 1 <= c <= 18 && c % 4 == 2)
  {
    var rows := set r | 1 <= r <= 13 && r % 3 == 2;
    assert rows == {2, 5, 8, 11} by {
      forall r | r in rows ensures r in {2, 5, 8, 11} {
        var q := r / 3;
        assert r == 3 * q + 2 && 0 <= q <= 3;
      }
    }
    assert (set k | 0 <= k < 4 :: 2 + 3 * k) == {2, 5, 8, 11} by {
      assert 2 + 3 * 0 == 2 && 2 + 3 * 1 == 5 && 2 + 3 * 2 == 8 && 2 + 3 * 3 == 11;
    }
    var cols := set c | 1 <= c <= 18 && c % 4 == 2;
    assert cols == {2, 6, 10, 14, 18} by {
      forall c | c in cols ensures c in {2, 6, 10, 14, 18} {
        var q := c / 4;
        assert c == 4 * q + 2 && 0 <= q <= 4;
      }
    }
    assert (set k | 0 <= k < 4 :: 2 + 4 * k) == {2, 6, 10, 14} by {
      assert 2 + 4 * 0 == 2 && 2 + 4 * 1 == 6 && 2 + 4 * 2 == 10 && 2 + 4 * 3 == 14;
    }
  }

  /* ---------------- polylineToPath ---------------- */

  /** The curve from `prev` to `curr`: both control points at the horizontal
      midpoint, the first at `prev`'s height and the second at `curr`'s. */
  function CurveTo(prev: Point, curr: Point): Cmd {
    var mx := prev.x + (curr.x - prev.x) * 0.5;
    Curve(Point(mx, prev.y), Point(mx, curr.y), curr)
  }

  /** "M" to the first point, then one curve to each later point. */
  function CurvePath(pts: seq<Point>): (cmds: seq<Cmd>)
    requires |pts| >= 1
    ensures |cmds| == |pts|
  {
    [Move(pts[0])] + seq(|pts| - 1, k requires 0 <= k < |pts| - 1 => CurveTo(pts[k], pts[k + 1]))
  }

  /** The curved path visits exactly the polyline's points, in order. */
  lemma CurvePathEnds(pts: seq<Point>)
    requires |pts| >= 1
    ensures Ends(CurvePath(pts)) == pts
  {
    var e := Ends(CurvePath(pts));
    forall i | 0 <= i < |pts| ensures e[i] == pts[i] {
      if i > 0 { assert CurvePath(pts)[i] == CurveTo(pts[i - 1], pts[i]); }
    }
  }

  lemma CurvePathSnoc(pts: seq<Point>, i: nat)
    requires 1 <= i < |pts|
    ensures CurvePath(pts[..i + 1]) == CurvePath(pts[..i]) + [CurveTo(pts[i - 1], pts[i])]
  {
    var a, b := CurvePath(pts[..i + 1]), CurvePath(pts[..i]) + [CurveTo(pts[i - 1], pts[i])];
    assert |a| == |b|;
    forall k | 0 <= k < |a| ensures a[k] == b[k] {
      if 0 < k < i { assert a[k] == CurveTo(pts[k - 1], pts[k]) == b[k]; }
    }
  }

  /** `polylineToPath(points)`: '' for fewer than two points, otherwise the
      text of the curved path through them. */
  method PolylineToPath(points: seq<Point>, num: real -> string) returns (path: string)
    ensures |points| < 2 ==> path == ""
    ensures |points| >= 2 ==> path == Render(CurvePath(points), num)
  {
    if |points| < 2 { return ""; }
    path := "M " + XY(points[0], num);
    assert CurvePath(points[..1]) == [Move(points[0])];
    for i := 1 to |points|
      invariant path == Render(CurvePath(points[..i]), num)
    {
      var prev, curr := points[i - 1], points[i];
      var cp1x := prev.x + (curr.x - prev.x) * 0.5;
      var cp1y := prev.y;
      var cp2x := prev.x + (curr.x - prev.x) * 0.5;
      var cp2y := curr.y;
      var curve := Curve(Point(cp1x, cp1y), Point(cp2x, cp2y), curr);
      assert curve == CurveTo(prev, curr);
      CurvePathSnoc(points, i);
      RenderSnoc(CurvePath(points[..i]), curve, num);
      path := path + " " + CmdText(curve, num);
    }
    assert points[..|points|] == points;
  }

  /* ---------------- animation ---------------- */

  /** `a + (b - a) * t` on one coordinate: for t in [0, 1] it stays between a and b. */
  function LerpCoord(a: real, b: real, t: real): (v: real)
    requires 0.0 <= t <= 1.0
    ensures Min(a, b) <= v <= Max(a, b)
  {
    LerpBetween(a, b, t);
    a + (b - a) * t
  }

  /** `{ x: current.x + (next.x - current.x) * t, y: ... }` */
  function Lerp(a: Point, b: Point, t: real): (q: Point)
    requires 0.0 <= t <= 1.0
    ensures Min(a.x, b.x) <= q.x <= Max(a.x, b.x) && Min(a.y, b.y) <= q.y <= Max(a.y, b.y)
  {
    Point(LerpCoord(a.x, b.x, t), LerpCoord(a.y, b.y, t))
  }

  /** `Math.floor(progress * totalLength)`: for progress in [0, 1) a valid segment index. */
  function SegIndex(p: real, total: nat): (idx: nat)
    requires 0.0 <= p < 1.0 && total > 0
    ensures idx < total
    ensures idx as real <= p * total as real < idx as real + 1.0
  {
    var scaled := p * total as real;
    ScaleBelow(p, total as real);
    assert 0.0 <= scaled < total as real;
    scaled.Floor
  }

  /** `(progress * totalLength) % 1` for a non-negative product. */
  function SegFrac(p: real, total: nat): (f: real)
    requires 0.0 <= p < 1.0 && total > 0
    ensures 0.0 <= f < 1.0
  {
    p * total as real - SegIndex(p, total) as real
  }

  /** `getCurrentPathSegment()` for progress p: the path up to point
      floor(p * (n - 1)), plus the point that far along the next segment when
      p * (n - 1) is not whole. */
  function CurrentPathSegment(path: seq<Point>, p: real): (seg: seq<Point>)
    requires 0.0 <= p < 1.0
    ensures |path| < 2 ==> seg == []
    ensures |path| >= 2 ==>
              var idx := SegIndex(p, |path| - 1);
              && |seg| == (if SegFrac(p, |path| - 1) > 0.0 then idx + 2 else idx + 1)
              && seg[..idx + 1] == path[..idx + 1]
              && (SegFrac(p, |path| - 1) > 0.0 ==>
                    && Min(path[idx].x, path[idx + 1].x) <= seg[idx + 1].x <= Max(path[idx].x, path[idx + 1].x)
                    && Min(path[idx].y, path[idx + 1].y) <= seg[idx + 1].y <= Max(path[idx].y, path[idx + 1].y))
  {
    if |path| < 2 then []
    else
      var totalLength := |path| - 1;
      var currentIndex := SegIndex(p, totalLength);
      var segmentProgress := SegFrac(p, totalLength);
      var segment := path[..currentIndex + 1];
      if segmentProgress > 0.0 && currentIndex < totalLength then
        segment + [Lerp(path[currentIndex], path[currentIndex + 1], segmentProgress)]
      else segment
  }

  /** The traced segment never gets shorter as progress grows. */
  lemma SegmentGrows(path: seq<Point>, p: real, q: real)
    requires 0.0 <= p <= q < 1.0
    ensures |CurrentPathSegment(path, p)| <= |CurrentPathSegment(path, q)|
  {
    if |path| >= 2 {
      SegLengthMonotone(p, q, |path| - 1);
    }
  }

  /** The segment length for progress p along n segments grows with p. */
  lemma SegLengthMonotone(p: real, q: real, n: nat)
    requires 0.0 <= p <= q < 1.0 && n > 0
    ensures (if SegFrac(p, n) > 0.0 then SegIndex(p, n) + 2 else SegIndex(p, n) + 1)
            <= (if SegFrac(q, n) > 0.0 then SegIndex(q, n) + 2 else SegIndex(q, n) + 1)
  {
    var x, y := p * n as real, q * n as real;
    assert x <= y by { ScaleMonotone(p, q, n); }
    var ip, iq := SegIndex(p, n), SegIndex(q, n);
    FloorOrder(ip, iq, x, y);
    if ip == iq {
      assert SegFrac(p, n) == x - ip as real;
      assert SegFrac(q, n) == y - ip as real;
    }
  }

  lemma FloorOrder(a: int, b: int, x: real, y: real)
    requires a as real <= x <= y < b as real + 1.0
    ensures a <= b
  {
  }

  lemma ScaleMonotone(p: real, q: real, n: nat)
    requires p <= q
    ensures p * n as real <= q * n as real
  {
    assert q * n as real - p * n as real == (q - p) * n as real;
  }

  /** The found path, or `d` when there is none. */
  function PathOr(found: Option<seq<Point>>, d: seq<Point>): seq<Point> {
    match found
    case Some(p) => p
    case None => d
  }

  /** The component's state: spots, roads, the traced route and its progress. */
  class Animation {
    var spots: seq<GridSpot>
    var roads: seq<seq<Point>>
    var currentPath: seq<Point>
    var progress: real

    ghost predicate Valid()
      reads this
    {
      && (forall i, j :: 0 <= i < j < |spots| ==> spots[i].cell != spots[j].cell)
      && 0.0 <= progress < 1.0
    }

    /** Mount: generate the lot; no route yet. */
    constructor (keep: (int, int) -> bool, occupied: (int, int) -> bool)
      ensures Valid()
      ensures spots == GridSpots(Geo, keep, occupied, LotHeight - 2)
      ensures |roads| == 9 && currentPath == [] && progress == 0.0
      ensures roads[0] == HRoad(0)
      ensures forall k :: 0 <= k < 4 ==> roads[1 + k] == HRoad((2 + 3 * k) * GridSize)
      ensures forall k :: 0 <= k < 4 ==> roads[5 + k] == VRoad((2 + 4 * k) * GridSize)
    {
      var s := GenerateSpots(Geo, keep, occupied);
      var r := GenerateRoads();
      GeneratedSpotsPlaced(Geo, keep, occupied);
      spots, roads := s, r;
      currentPath, progress := [], 0.0;
    }

    /** `generateRoute()`, with the corrected search: needs two spots with
        different ids; when the search finds a route between their cells
        (`found`, which is ghost) the route becomes the traced path and the
        progress restarts, otherwise nothing changes. (With the search as
        written the route would never change; see `FindPath`.) */
    method GenerateRoute(r1: real, r2: real, fuel: nat) returns (ghost found: Option<seq<Point>>)
      requires Valid() && IsDraw(r1) && IsDraw(r2)
      modifies this
      ensures Valid()
      ensures spots == old(spots) && roads == old(roads)
      ensures |spots| < 2 || spots[Pick(r1, |spots|)].cell == spots[Pick(r2, |spots|)].cell ==> found.None?
      ensures found.None? ==> currentPath == old(currentPath) && progress == old(progress)
      ensures found.Some? ==>
                && currentPath == found.value && progress == 0.0
                && exists cells :: GridWalk(cells, spots[Pick(r1, |spots|)].cell, spots[Pick(r2, |spots|)].cell)
                                   && currentPath == Centres(cells)
    {
      found := None;
      if |spots| < 2 { return; }
      var start := spots[Pick(r1, |spots|)];
      var end := spots[Pick(r2, |spots|)];
      if start.cell != end.cell {
        var path, cells := FindPathFixed(start.cell, end.cell, fuel);
        found := path;
        currentPath := PathOr(path, currentPath);
        progress := if path.Some? then 0.0 else progress;
      }
    }

    /** `generateRoute()` with the search as written: whatever the draws, the
        two picked cells differ whenever the search runs, so it finds nothing
        and the traced path and its progress never change; a freshly mounted
        component keeps an empty route for ever. */
    method GenerateRouteAsWritten(r1: real, r2: real)
      requires Valid() && IsDraw(r1) && IsDraw(r2)
      modifies this
      ensures Valid()
      ensures spots == old(spots) && roads == old(roads)
      ensures currentPath == old(currentPath) && progress == old(progress)
    {
      if |spots| < 2 { return; }
      var start := spots[Pick(r1, |spots|)];
      var end := spots[Pick(r2, |spots|)];
      if start.cell != end.cell {
        var path := FindPath(start.cell, end.cell);
        currentPath := PathOr(path, currentPath);
        progress := if path.Some? then 0.0 else progress;
      }
    }

    /** One animation interval: runs only while a route is shown and visible. */
    method Animate(isVisible: bool)
      requires Valid()
      modifies this`progress
      ensures Valid()
      ensures |currentPath| > 0 && isVisible ==> progress == Tick(old(progress))
      ensures !(|currentPath| > 0 && isVisible) ==> progress == old(progress)
    {
      if |currentPath| > 0 && isVisible {
        progress := Tick(progress);
      }
    }
  }
}
