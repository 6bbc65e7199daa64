/** Hero.js: the hero animation's 24 x 18 grid of 20-pixel cells, its
    diagonal-stepping path builder and the route it traces. */
module HeroAnimation {
  import opened Common
  import opened GridLot

  const GridSize := 20
  const LotWidth := 24     // cells
  const LotHeight := 18    // cells

  /** 20-pixel cells, a 24 x 18 lot, 2 x 1.5 spots. */
  const Geo := GridGeo(GridSize, LotWidth, LotHeight, 2.0, 1.5)

  /** Chebyshev distance: how many diagonal-or-straight steps separate two cells. */
  function Cheb(a: Cell, b: Cell): nat {
    var dr, dc := IAbs(a.row - b.row), IAbs(a.col - b.col);
    if dr >= dc then dr else dc
  }

  /** One coordinate moved one step toward the target, or kept when equal. */
  function Toward(a: int, b: int): int {
    if a < b then a + 1 else if a > b then a - 1 else a
  }

  /** One step of the loop: the row, then the column, each moved by at most one toward `end`. */
  function Step(c: Cell, end: Cell): Cell {
    Cell(Toward(c.row, end.row), Toward(c.col, end.col))
  }

  /** The cell after k steps from `c`. */
  function Walk(c: Cell, end: Cell, k: nat): Cell {
    if k == 0 then c else Step(Walk(c, end, k - 1), end)
  }

  /** A step from a cell other than the target brings it exactly one step closer. */
  lemma StepCloser(c: Cell, end: Cell)
    requires c != end
    ensures Cheb(Step(c, end), end) == Cheb(c, end) - 1
  {
  }

  /** After k steps the walk is max(D - k, 0) steps from the target, D being the start's distance. */
  lemma {:induction false} WalkDistance(start: Cell, end: Cell, k: nat)
    ensures Cheb(Walk(start, end, k), end) == if k <= Cheb(start, end) then Cheb(start, end) - k else 0
  {
    if k > 0 {
      WalkDistance(start, end, k - 1);
      var c := Walk(start, end, k - 1);
      if c != end {
        StepCloser(c, end);
      } else {
        assert Step(c, end) == c;
      }
    }
  }

  /** The loop visits D + 1 cells and ends at the target. */
  lemma WalkArrives(start: Cell, end: Cell)
    ensures Walk(start, end, Cheb(start, end)) == end
    ensures forall k :: 0 <= k < Cheb(start, end) ==> Walk(start, end, k) != end
  {
    WalkDistance(start, end, Cheb(start, end));
    assert Cheb(Walk(start, end, Cheb(start, end)), end) == 0;
    forall k | 0 <= k < Cheb(start, end) ensures Walk(start, end, k) != end {
      WalkDistance(start, end, k);
    }
  }

  /** The centres of the first n cells of the walk. */
  function WalkCentres(start: Cell, end: Cell, n: nat): (p: seq<Point>)
    ensures |p| == n
  {
    if n == 0 then [] else WalkCentres(start, end, n - 1) + [Centre(Geo, Walk(start, end, n - 1))]
  }

  lemma {:induction false} WalkCentresAt(start: Cell, end: Cell, n: nat)
    ensures forall i :: 0 <= i < n ==> WalkCentres(start, end, n)[i] == Centre(Geo, Walk(start, end, i))
  {
    if n > 0 {
      WalkCentresAt(start, end, n - 1);
    }
  }

  /** `findPath(start, end)`: the centres of the cells visited while stepping
      diagonally (then straight) from start to end, end included. The loop
      works on a copy, so the caller's start is unchanged (here, a value). */
  method FindPath(start: Cell, end: Cell) returns (path: seq<Point>)
    ensures path == WalkCentres(start, end, Cheb(start, end) + 1)
  {
    path := [];
    var current := start;
    WalkArrives(start, end);
    while current.row != end.row || current.col != end.col
      invariant |path| <= Cheb(start, end)
      invariant current == Walk(start, end, |path|)
      invariant path == WalkCentres(start, end, |path|)
      decreases Cheb(start, end) - |path|
    {
      ghost var next := Step(current, end);
      path := path + [Centre(Geo, current)];
      if current.row < end.row { current := current.(row := current.row + 1); }
      else if current.row > end.row { current := current.(row := current.row - 1); }
      if current.col < end.col { current := current.(col := current.col + 1); }
      else if current.col > end.col { current := current.(col := current.col - 1); }
      assert current == next;
    }
    path := path + [Centre(Geo, end)];
  }

  /** The path `findPath` returns has D + 1 points, D = max(|Δrow|, |Δcol|),
      from the start's centre to the end's, and each point's cell is one step
      closer to the end than the last. */
  lemma WalkPathEnds(start: Cell, end: Cell)
    ensures var path := WalkCentres(start, end, Cheb(start, end) + 1);
            && path[0] == Centre(Geo, start) && path[|path| - 1] == Centre(Geo, end)
            && (forall i :: 0 <= i < |path| ==> Cheb(Walk(start, end, i), end) == |path| - 1 - i)
  {
    var n := Cheb(start, end) + 1;
    WalkCentresAt(start, end, n);
    WalkArrives(start, end);
    forall i | 0 <= i < n ensures Cheb(Walk(start, end, i), end) == n - 1 - i {
      WalkDistance(start, end, i);
    }
  }

  /** At most one cell apart along each axis. */
  predicate Near(a: Point, b: Point) {
    Abs(b.x - a.x) <= GridSize as real && Abs(b.y - a.y) <= GridSize as real
  }

  /** Consecutive points of the walk are at most one cell apart along each axis. */
  lemma WalkPathNear(start: Cell, end: Cell, n: nat)
    ensures var path := WalkCentres(start, end, n);
            forall i :: 0 <= i < n - 1 ==> Near(path[i], path[i + 1])
  {
    var path := WalkCentres(start, end, n);
    WalkCentresAt(start, end, n);
    forall i | 0 <= i < n - 1 ensures Near(path[i], path[i + 1]) {
      StepNear(Walk(start, end, i), end);
      assert path[i + 1] == Centre(Geo, Step(Walk(start, end, i), end));
    }
  }

  /** The centres of a cell and of its next step are at most one cell apart on each axis. */
  lemma StepNear(c: Cell, end: Cell)
    ensures Near(Centre(Geo, c), Centre(Geo, Step(c, end)))
  {
    var s := Step(c, end);
    assert -1 <= s.row - c.row <= 1 && -1 <= s.col - c.col <= 1;
    assert (s.col * GridSize) as real - (c.col * GridSize) as real == ((s.col - c.col) * GridSize) as real;
    assert (s.row * GridSize) as real - (c.row * GridSize) as real == ((s.row - c.row) * GridSize) as real;
  }

  /** The component's state: spots, the traced route and its progress. */
  class Hero {
    var spots: seq<GridSpot>
    var currentPath: seq<Point>
    var progress: real

    ghost predicate Valid()
      reads this
    {
      && (forall i, j :: 0 <= i < j < |spots| ==> spots[i].cell != spots[j].cell)
      && 0.0 <= progress < 1.0
    }

    /** Mount: generate the spots (kept when `Math.random() > 0.2`); no route yet. */
    constructor (keep: (int, int) -> bool, occupied: (int, int) -> bool)
      ensures Valid()
      ensures spots == GridSpots(Geo, keep, occupied, LotHeight - 2)
      ensures currentPath == [] && progress == 0.0
    {
      var s := GenerateSpots(Geo, keep, occupied);
      GeneratedSpotsPlaced(Geo, keep, occupied);
      spots := s;
      currentPath, progress := [], 0.0;
    }

    /** `generateRoute()`: with at least two spots and two picks with different
        ids, trace the stepped path between them from progress 0; otherwise
        change nothing. */
    method GenerateRoute(r1: real, r2: real)
      requires Valid() && IsDraw(r1) && IsDraw(r2)
      modifies this
      ensures Valid() && spots == old(spots)
      ensures var n := |old(spots)|;
              if n >= 2 && old(spots)[Pick(r1, n)].cell != old(spots)[Pick(r2, n)].cell then
                && |currentPath| >= 2 && progress == 0.0
                && currentPath == WalkCentres(old(spots)[Pick(r1, n)].cell, old(spots)[Pick(r2, n)].cell,
                                              Cheb(old(spots)[Pick(r1, n)].cell, old(spots)[Pick(r2, n)].cell) + 1)
                && currentPath[0] == Centre(Geo, old(spots)[Pick(r1, n)].cell)
                && currentPath[|currentPath| - 1] == Centre(Geo, old(spots)[Pick(r2, n)].cell)
              else currentPath == old(currentPath) && progress == old(progress)
    {
      if |spots| < 2 { return; }
      var start := spots[Pick(r1, |spots|)];
      var end := spots[Pick(r2, |spots|)];
      if start.cell != end.cell {
        var path := FindPath(start.cell, end.cell);
        WalkPathEnds(start.cell, end.cell);
        currentPath := path;
        progress := 0.0;
      }
    }

    /** One animation interval: runs while a route is shown. */
    method Animate()
      requires Valid()
      modifies this`progress
      ensures Valid()
      ensures |currentPath| > 0 ==> progress == Tick(old(progress))
      ensures |currentPath| == 0 ==> progress == old(progress)
    {
      if |currentPath| > 0 {
        progress := Tick(progress);
      }
    }
  }
}
