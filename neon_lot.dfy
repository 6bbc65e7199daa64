/** The `parkingLot` generator of NeonVectorBackground.js: measurements scale
    with the smaller window side, the grid is at least 15 columns by 10 rows,
    and there are always two external gates. */
module NeonLot {
  import opened Common
  import opened ParkingLot

  /** Padding, spot and aisle sizes as fractions of min(width, height). */
  function NeonGeo(width: real, height: real): (g: Geo)
    requires width > 0.0 && height > 0.0
    ensures g.padding > 0.0 && g.spotWidth > 0.0 && g.spotHeight > 0.0 && g.aisleWidth > 0.0
    ensures g.height - g.padding > g.padding
  {
    var m := Min(width, height);
    var spotWidth := m * 0.02;
    Geo(m * 0.05, spotWidth, spotWidth * 0.5, spotWidth * 1.4, height)
  }

  /** `Math.max(lo, Math.floor(span / step))` */
  function GridCount(lo: nat, span: real, step: real): (n: nat)
    requires step > 0.0
    ensures n >= lo
    ensures (span / step).Floor >= lo ==> n == (span / step).Floor
  {
    var f := (span / step).Floor;
    if f >= lo then f else lo
  }

  function Cols(width: real, g: Geo): nat
    requires g.spotWidth + g.aisleWidth > 0.0
  {
    GridCount(15, width - g.padding * 2.0, g.spotWidth + g.aisleWidth)
  }

  function Rows(height: real, g: Geo): nat
    requires g.spotHeight * 2.0 + g.aisleWidth > 0.0
  {
    GridCount(10, height - g.padding * 2.0, g.spotHeight * 2.0 + g.aisleWidth)
  }

  function Gates(width: real, g: Geo, rows: nat): seq<Gate> {
    [MainGateOf(g), SideGateOf(width, g, rows)]
  }

  /** The lot for a window of the given size: the spots and aisles of the
      grid, then the mains, with the two external gates. */
  function NeonLotOf(width: real, height: real): Lot
    requires width > 0.0 && height > 0.0
  {
    var g := NeonGeo(width, height);
    var cols := Cols(width, g);
    var rows := Rows(height, g);
    Lot(LotSpots(g, rows, cols), LotAisles(g, rows, cols) + Mains(g, cols), Gates(width, g, rows), cols, rows)
  }

  /** Lays the lot out for a window of the given size. */
  method GenerateLot(width: real, height: real) returns (lot: Lot)
    requires width > 0.0 && height > 0.0
    ensures lot == NeonLotOf(width, height)
    ensures lot.cols >= 15 && lot.rows >= 10
    ensures |lot.spots| == 2 * lot.rows * lot.cols
    ensures |lot.aisles| == lot.rows * lot.cols + lot.cols
    ensures forall i :: 0 <= i < lot.rows * lot.cols ==> Horizontal(lot.aisles[i]) && !lot.aisles[i].isMain
    ensures forall i :: lot.rows * lot.cols <= i < |lot.aisles| ==> Vertical(lot.aisles[i]) && lot.aisles[i].isMain
    ensures |lot.gates| == 2 && lot.gates[0].id == MainGate && lot.gates[1].id == SideGate
    ensures forall s :: s in lot.spots ==> s.id.row < lot.rows && s.id.col < lot.cols
  {
    var g := NeonGeo(width, height);
    var cols := Cols(width, g);
    var rows := Rows(height, g);
    var spots, aisles := LayOut(g, rows, cols);
    lot := Lot(spots, aisles, Gates(width, g, rows), cols, rows);
    LotSpotsCount(g, rows, cols);
    LotAislesShape(g, rows, cols);
    MainsShape(g, cols);
    LotSpotsInGrid(g, rows, cols);
    var hs := LotAisles(g, rows, cols);
    assert forall i :: 0 <= i < rows * cols ==> aisles[i] == hs[i];
    assert forall i :: rows * cols <= i < |aisles| ==> aisles[i] == Mains(g, cols)[i - rows * cols];
  }
}
