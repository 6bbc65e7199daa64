/** The synthetic parking lot shared by both animated backgrounds
    (NeonVectorBackground.js and background.js): a rows x cols grid of cells,
    each with a top spot, a bottom spot and a horizontal aisle segment between
    them, followed by one vertical main aisle per column. The two files lay the
    lot out with the same nested loops and differ only in the measurements,
    which are the `Geo` parameter here. */
module ParkingLot {
  import opened Common

  datatype SpotId = SpotId(row: nat, col: nat, top: bool)   // `${row}-${col}-top|bottom`

  datatype Spot = Spot(id: SpotId, x: real, y: real, width: real, height: real, aisleConnection: Point)

  datatype AisleId = Segment(row: nat, col: nat)   // `aisle-${row}-${col}`
                   | MainVertical(col: nat)        // `main-vertical-${col}`

  datatype Aisle = Aisle(id: AisleId, x1: real, y1: real, x2: real, y2: real, isMain: bool)

  datatype GateId = MainGate | SideGate          // 'main-gate', 'side-gate'
  datatype Direction = South | West
  datatype Gate = Gate(id: GateId, x: real, y: real, direction: Direction)

  /** What a generator returns: the lot's contents and its grid size. */
  datatype Lot = Lot(spots: seq<Spot>, aisles: seq<Aisle>, gates: seq<Gate>, cols: nat, rows: nat)

  /** The measurements of a lot: padding, spot size, aisle width and the full height. */
  datatype Geo = Geo(padding: real, spotWidth: real, spotHeight: real, aisleWidth: real, height: real)

  predicate Horizontal(a: Aisle) { a.y1 == a.y2 }
  predicate Vertical(a: Aisle) { a.x1 == a.x2 }

  /** Left and top edge of the cell at (row, col). */
  function CellX(g: Geo, col: nat): real { g.padding + col as real * (g.spotWidth + g.aisleWidth) }
  function CellY(g: Geo, row: nat): real { g.padding + row as real * (g.spotHeight * 2.0 + g.aisleWidth) }

  function TopSpot(g: Geo, row: nat, col: nat): Spot {
    var x := CellX(g, col);
    var y := CellY(g, row);
    Spot(SpotId(row, col, true), x + g.aisleWidth / 2.0, y, g.spotWidth, g.spotHeight,
         Point(x + g.aisleWidth / 2.0 + g.spotWidth / 2.0, y + g.spotHeight))
  }

  function BottomSpot(g: Geo, row: nat, col: nat): Spot {
    var x := CellX(g, col);
    var y := CellY(g, row);
    Spot(SpotId(row, col, false), x + g.aisleWidth / 2.0, y + g.spotHeight + g.aisleWidth, g.spotWidth, g.spotHeight,
         Point(x + g.aisleWidth / 2.0 + g.spotWidth / 2.0, y + g.spotHeight + g.aisleWidth))
  }

  /** The horizontal aisle segment between the two spot bands of a cell. */
  function CellAisle(g: Geo, row: nat, col: nat): Aisle {
    var x := CellX(g, col);
    var hy := CellY(g, row) + g.spotHeight;
    Aisle(Segment(row, col), x + g.aisleWidth / 2.0, hy, x + g.aisleWidth / 2.0 + g.spotWidth, hy, false)
  }

  /** The vertical main aisle of a column, from the top padding to the bottom padding. */
  function MainAisle(g: Geo, col: nat): Aisle {
    var x := CellX(g, col) + g.aisleWidth / 2.0 + g.spotWidth / 2.0;
    Aisle(MainVertical(col), x, g.padding, x, g.height - g.padding, true)
  }

  /** The main gate, above the first column's main aisle, facing south. */
  function MainGateOf(g: Geo): Gate {
    Gate(MainGate, g.padding + g.aisleWidth / 2.0 + g.spotWidth / 2.0, g.padding, South)
  }

  /** The side gate, on the right edge halfway down the rows, facing west. */
  function SideGateOf(width: real, g: Geo, rows: nat): Gate {
    Gate(SideGate, width - g.padding, g.padding + (rows as real * (g.spotHeight * 2.0 + g.aisleWidth)) / 2.0, West)
  }

  /** The spots of the first `n` cells of one row, in push order. */
  function RowSpots(g: Geo, row: nat, n: nat): seq<Spot> {
    if n == 0 then [] else RowSpots(g, row, n - 1) + [TopSpot(g, row, n - 1), BottomSpot(g, row, n - 1)]
  }

  /** The spots of the first `n` rows. */
  function LotSpots(g: Geo, n: nat, cols: nat): seq<Spot> {
    if n == 0 then [] else LotSpots(g, n - 1, cols) + RowSpots(g, n - 1, cols)
  }

  function RowAisles(g: Geo, row: nat, n: nat): seq<Aisle> {
    if n == 0 then [] else RowAisles(g, row, n - 1) + [CellAisle(g, row, n - 1)]
  }

  function LotAisles(g: Geo, n: nat, cols: nat): seq<Aisle> {
    if n == 0 then [] else LotAisles(g, n - 1, cols) + RowAisles(g, n - 1, cols)
  }

  function Mains(g: Geo, n: nat): seq<Aisle> {
    if n == 0 then [] else Mains(g, n - 1) + [MainAisle(g, n - 1)]
  }

  /** The nested generator loops: for each row, for each column, push the top
      spot, the bottom spot and the aisle segment; then push one vertical main
      per column. */
  method LayOut(g: Geo, rows: nat, cols: nat) returns (spots: seq<Spot>, aisles: seq<Aisle>)
    ensures spots == LotSpots(g, rows, cols)
    ensures aisles == LotAisles(g, rows, cols) + Mains(g, cols)
  {
    spots, aisles := [], [];
    var row := 0;
    while row < rows
      invariant row <= rows
      invariant spots == LotSpots(g, row, cols) && aisles == LotAisles(g, row, cols)
    {
      var col := 0;
      while col < cols
        invariant col <= cols
        invariant spots == LotSpots(g, row, cols) + RowSpots(g, row, col)
        invariant aisles == LotAisles(g, row, cols) + RowAisles(g, row, col)
      {
        spots := spots + [TopSpot(g, row, col)];
        spots := spots + [BottomSpot(g, row, col)];
        aisles := aisles + [CellAisle(g, row, col)];
        col := col + 1;
      }
      row := row + 1;
    }
    var col := 0;
    while col < cols
      invariant col <= cols
      invariant aisles == LotAisles(g, rows, cols) + Mains(g, col)
    {
      aisles := aisles + [MainAisle(g, col)];
      col := col + 1;
    }
  }

  lemma {:induction false} RowSpotsCount(g: Geo, row: nat, n: nat)
    ensures |RowSpots(g, row, n)| == 2 * n
  {
    if n > 0 { RowSpotsCount(g, row, n - 1); }
  }

  /** The lot holds exactly two spots per cell. */
  lemma {:induction false} LotSpotsCount(g: Geo, n: nat, cols: nat)
    ensures |LotSpots(g, n, cols)| == 2 * n * cols
  {
    if n > 0 {
      LotSpotsCount(g, n - 1, cols);
      RowSpotsCount(g, n - 1, cols);
      assert 2 * (n - 1) * cols + 2 * cols == 2 * n * cols;
    }
  }

  lemma {:induction false} RowAislesShape(g: Geo, row: nat, n: nat)
    ensures |RowAisles(g, row, n)| == n
    ensures forall a :: a in RowAisles(g, row, n) ==> Horizontal(a) && !a.isMain
  {
    if n > 0 { RowAislesShape(g, row, n - 1); }
  }

  /** One horizontal, non-main aisle segment per cell. */
  lemma {:induction false} LotAislesShape(g: Geo, n: nat, cols: nat)
    ensures |LotAisles(g, n, cols)| == n * cols
    ensures forall a :: a in LotAisles(g, n, cols) ==> Horizontal(a) && !a.isMain
  {
    if n > 0 {
      LotAislesShape(g, n - 1, cols);
      RowAislesShape(g, n - 1, cols);
      assert (n - 1) * cols + cols == n * cols;
    }
  }

  /** One vertical main aisle per column. */
  lemma {:induction false} MainsShape(g: Geo, n: nat)
    ensures |Mains(g, n)| == n
    ensures forall a :: a in Mains(g, n) ==> Vertical(a) && a.isMain
  {
    if n > 0 { MainsShape(g, n - 1); }
  }

  /** Every spot of the lot belongs to a cell inside the grid. */
  lemma {:induction false} LotSpotsInGrid(g: Geo, n: nat, cols: nat)
    ensures forall s :: s in LotSpots(g, n, cols) ==> s.id.row < n && s.id.col < cols
  {
    if n > 0 {
      LotSpotsInGrid(g, n - 1, cols);
      RowSpotsInRow(g, n - 1, cols);
    }
  }

  lemma {:induction false} RowSpotsInRow(g: Geo, row: nat, n: nat)
    ensures forall s :: s in RowSpots(g, row, n) ==> s.id.row == row && s.id.col < n
  {
    if n > 0 { RowSpotsInRow(g, row, n - 1); }
  }

  /** A top spot connects to its cell's aisle segment at the segment's midpoint. */
  lemma TopSpotMeetsAisle(g: Geo, row: nat, col: nat)
    ensures var a := CellAisle(g, row, col);
            var c := TopSpot(g, row, col).aisleConnection;
            c.y == a.y1 && c.x == (a.x1 + a.x2) / 2.0
  {
  }

  /** Each column's vertical main crosses every aisle segment of that column at its midpoint. */
  lemma MainCrossesSegment(g: Geo, row: nat, col: nat)
    ensures var a := CellAisle(g, row, col);
            MainAisle(g, col).x1 == (a.x1 + a.x2) / 2.0
  {
  }
}
