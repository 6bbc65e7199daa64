/** The cell grid shared by the two route-tracing animations
    (ParkingLotAnimation.js and Hero.js): cells, road cells, the spot
    generator's nested loops and the progress tick. The two files repeat the
    same loops with different constants, which are the `GridGeo` parameter here. */
module GridLot {
  import opened Common

  datatype Cell = Cell(row: int, col: int)

  /** A spot; its id `${row}-${col}` is the cell itself. */
  datatype GridSpot = GridSpot(cell: Cell, x: real, y: real, width: real, height: real, occupied: bool)

  /** Cell size in pixels, lot size in cells, spot size in cells. */
  datatype GridGeo = GridGeo(size: nat, width: nat, height: nat, spotWidth: real, spotHeight: real)

  function IAbs(n: int): (a: nat)
    ensures a == n || a == -n
  {
    if n < 0 then -n else n
  }

  /** The cells both animations treat as road: every third row from 2, every fourth column from 2. */
  predicate OnRoad(c: Cell) {
    c.row % 3 == 2 || c.col % 4 == 2
  }

  /** The centre pixel of a cell: `col * GRID_SIZE + GRID_SIZE / 2`, likewise for the row. */
  function Centre(geo: GridGeo, c: Cell): Point {
    Point((c.col * geo.size) as real + geo.size as real / 2.0, (c.row * geo.size) as real + geo.size as real / 2.0)
  }

  /* ---------------- spot generation ---------------- */

  /** The spot of a cell, centred on the cell. */
  function MakeSpot(geo: GridGeo, row: int, col: int, occupied: bool): GridSpot {
    var s := geo.size as real;
    GridSpot(Cell(row, col),
             (col * geo.size) as real + (s - geo.spotWidth * s) / 2.0,
             (row * geo.size) as real + (s - geo.spotHeight * s) / 2.0,
             geo.spotWidth * s, geo.spotHeight * s, occupied)
  }

  /** Whether the generator places a spot at (row, col), given the random keep test. */
  predicate Placed(keep: (int, int) -> bool, row: int, col: int) {
    !OnRoad(Cell(row, col)) && keep(row, col)
  }

  /** The spots of row `row`, columns 1 to n. */
  function RowGridSpots(geo: GridGeo, keep: (int, int) -> bool, occupied: (int, int) -> bool, row: int, n: nat): seq<GridSpot> {
    if n == 0 then []
    else RowGridSpots(geo, keep, occupied, row, n - 1)
         + (if Placed(keep, row, n) then [MakeSpot(geo, row, n, occupied(row, n))] else [])
  }

  /** The spots of rows 1 to n, each over columns 1 to width - 2. */
  function GridSpots(geo: GridGeo, keep: (int, int) -> bool, occupied: (int, int) -> bool, n: nat): seq<GridSpot>
    requires geo.width >= 2
  {
    if n == 0 then []
    else GridSpots(geo, keep, occupied, n - 1) + RowGridSpots(geo, keep, occupied, n, geo.width - 2)
  }

  /** The spot-generation loops over rows 1..height-2 and columns 1..width-2,
      skipping road cells. `keep(row, col)` and `occupied(row, col)` stand for
      the two `Math.random()` tests made for that cell. */
  method GenerateSpots(geo: GridGeo, keep: (int, int) -> bool, occupied: (int, int) -> bool) returns (spots: seq<GridSpot>)
    requires geo.width >= 2 && geo.height >= 2
    ensures spots == GridSpots(geo, keep, occupied, geo.height - 2)
  {
    spots := [];
    var row := 1;
    while row < geo.height - 1
      invariant 1 <= row <= geo.height - 1
      invariant spots == GridSpots(geo, keep, occupied, row - 1)
    {
      var col := 1;
      while col < geo.width - 1
        invariant 1 <= col <= geo.width - 1
        invariant spots == GridSpots(geo, keep, occupied, row - 1) + RowGridSpots(geo, keep, occupied, row, col - 1)
      {
        if row % 3 == 2 || col % 4 == 2 {
          col := col + 1;
          continue;
        }
        if keep(row, col) {
          spots := spots + [MakeSpot(geo, row, col, occupied(row, col))];
        }
        col := col + 1;
      }
      row := row + 1;
    }
  }

  /** Row-major order of cells. */
  function Rank(geo: GridGeo, c: Cell): int {
    c.row * geo.width + c.col
  }

  predicate Ordered(geo: GridGeo, spots: seq<GridSpot>) {
    forall i, j :: 0 <= i < j < |spots| ==> Rank(geo, spots[i].cell) < Rank(geo, spots[j].cell)
  }

  lemma OrderedAppend(geo: GridGeo, a: seq<GridSpot>, b: seq<GridSpot>)
    requires Ordered(geo, a) && Ordered(geo, b)
    requires forall x, y :: x in a && y in b ==> Rank(geo, x.cell) < Rank(geo, y.cell)
    ensures Ordered(geo, a + b)
  {
    forall i, j | 0 <= i < j < |a + b| ensures Rank(geo, (a + b)[i].cell) < Rank(geo, (a + b)[j].cell) {
      if j < |a| {
      } else if i >= |a| {
        assert (a + b)[i] == b[i - |a|] && (a + b)[j] == b[j - |a|];
      } else {
        assert (a + b)[i] in a && (a + b)[j] in b;
      }
    }
  }

  /** Every cell of an earlier row ranks below the first cell of a later row. */
  lemma RowBelow(r: int, n: int, w: nat)
    requires 0 <= r < n
    ensures r * w + w <= n * w
  {
    var k := n - r - 1;
    assert k >= 0;
    assert n * w == r * w + w + k * w;
    assert k * w >= 0;
  }

  /** A row holds a spot exactly for each placed cell of columns 1..n, in column order. */
  lemma {:induction false} RowGridSpotsFacts(geo: GridGeo, keep: (int, int) -> bool, occupied: (int, int) -> bool, row: int, n: nat)
    ensures forall s :: s in RowGridSpots(geo, keep, occupied, row, n) <==>
              exists col :: 1 <= col <= n && Placed(keep, row, col) && s == MakeSpot(geo, row, col, occupied(row, col))
    ensures Ordered(geo, RowGridSpots(geo, keep, occupied, row, n))
  {
    if n > 0 {
      RowGridSpotsFacts(geo, keep, occupied, row, n - 1);
      var prev := RowGridSpots(geo, keep, occupied, row, n - 1);
      var last: seq<GridSpot> := if Placed(keep, row, n) then [MakeSpot(geo, row, n, occupied(row, n))] else [];
      forall x, y | x in prev && y in last ensures Rank(geo, x.cell) < Rank(geo, y.cell) {
        var col :| 1 <= col <= n - 1 && Placed(keep, row, col) && x == MakeSpot(geo, row, col, occupied(row, col));
      }
      OrderedAppend(geo, prev, last);
    }
  }

  /** Rows 1..n hold a spot exactly for each placed cell of those rows and
      columns 1..width-2, in row-major order. */
  lemma {:induction false} GridSpotsFacts(geo: GridGeo, keep: (int, int) -> bool, occupied: (int, int) -> bool, n: nat)
    requires geo.width >= 2
    ensures forall s :: s in GridSpots(geo, keep, occupied, n) <==>
              exists row, col :: 1 <= row <= n && 1 <= col <= geo.width - 2 && Placed(keep, row, col)
                                 && s == MakeSpot(geo, row, col, occupied(row, col))
    ensures Ordered(geo, GridSpots(geo, keep, occupied, n))
  {
    if n > 0 {
      GridSpotsFacts(geo, keep, occupied, n - 1);
      RowGridSpotsFacts(geo, keep, occupied, n, geo.width - 2);
      var prev := GridSpots(geo, keep, occupied, n - 1);
      var last := RowGridSpots(geo, keep, occupied, n, geo.width - 2);
      forall x, y | x in prev && y in last ensures Rank(geo, x.cell) < Rank(geo, y.cell) {
        var r, c :| 1 <= r <= n - 1 && 1 <= c <= geo.width - 2 && Placed(keep, r, c) && x == MakeSpot(geo, r, c, occupied(r, c));
        var c' :| 1 <= c' <= geo.width - 2 && Placed(keep, n, c') && y == MakeSpot(geo, n, c', occupied(n, c'));
        RowBelow(r, n, geo.width);
        assert Rank(geo, x.cell) == r * geo.width + c && Rank(geo, y.cell) == n * geo.width + c';
      }
      OrderedAppend(geo, prev, last);
    }
  }

  /** Every generated spot lies in rows 1..height-2 and columns 1..width-2,
      off the roads, where the keep test passed; every such cell gets a spot;
      and no two spots share a cell (so no two share an id). */
  lemma GeneratedSpotsPlaced(geo: GridGeo, keep: (int, int) -> bool, occupied: (int, int) -> bool)
    requires geo.width >= 2 && geo.height >= 2
    ensures var spots := GridSpots(geo, keep, occupied, geo.height - 2);
            && (forall s :: s in spots ==>
                  && 1 <= s.cell.row <= geo.height - 2 && 1 <= s.cell.col <= geo.width - 2
                  && !OnRoad(s.cell) && keep(s.cell.row, s.cell.col)
                  && s == MakeSpot(geo, s.cell.row, s.cell.col, occupied(s.cell.row, s.cell.col)))
            && (forall row, col :: 1 <= row <= geo.height - 2 && 1 <= col <= geo.width - 2 && Placed(keep, row, col) ==>
                  MakeSpot(geo, row, col, occupied(row, col)) in spots)
            && (forall i, j :: 0 <= i < j < |spots| ==> spots[i].cell != spots[j].cell)
  {
    GridSpotsFacts(geo, keep, occupied, geo.height - 2);
  }

  /* ---------------- progress tick ---------------- */

  /** The progress tick: add 0.02, and start over at 0 once 1 is reached. */
  function Tick(progress: real): (next: real)
    ensures 0.0 <= progress ==> 0.0 <= next < 1.0
    ensures next == 0.0 || next == progress + 0.02
  {
    var newProgress := progress + 0.02;
    if newProgress >= 1.0 then 0.0 else newProgress
  }

  /** Progress after n ticks from 0. */
  function Ticks(n: nat): real {
    if n == 0 then 0.0 else Tick(Ticks(n - 1))
  }

  lemma {:induction false} TicksLinear(n: nat)
    requires n < 50
    ensures Ticks(n) == n as real * 0.02
  {
    if n > 0 { TicksLinear(n - 1); }
  }

  /** With exact arithmetic a trace takes 50 ticks: progress climbs by 0.02 and
      the 50th tick brings it back to 0. */
  lemma TraceTakesFiftyTicks()
    ensures forall n :: 0 < n < 50 ==> Ticks(n) > 0.0
    ensures Ticks(50) == 0.0
  {
    forall n | 0 < n < 50 ensures Ticks(n) > 0.0 { TicksLinear(n); }
    TicksLinear(49);
  }
}
