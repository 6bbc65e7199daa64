/** SVG path data ("d" attributes) as the animated backgrounds write them:
    a list of commands, and the text those commands are printed as. How a
    JavaScript number is printed (`Number.prototype.toString`) is not modelled:
    it is the parameter `num`. */
module SvgPath {
  import opened Common

  datatype Cmd =
    | Move(p: Point)                        // "M x y"
    | Line(p: Point)                        // "L x y"
    | Curve(c1: Point, c2: Point, p: Point) // "C x1 y1, x2 y2, x y"

  /** The point a command draws to. */
  function EndPoint(c: Cmd): Point {
    c.p
  }

  /** The points a path visits, one per command, in order. */
  function Ends(cmds: seq<Cmd>): (pts: seq<Point>)
    ensures |pts| == |cmds|
    ensures forall i :: 0 <= i < |cmds| ==> pts[i] == cmds[i].p
  {
    seq(|cmds|, i requires 0 <= i < |cmds| => cmds[i].p)
  }

  /** `${x} ${y}` */
  function XY(p: Point, num: real -> string): string {
    num(p.x) + " " + num(p.y)
  }

  function CmdText(c: Cmd, num: real -> string): string {
    match c
    case Move(p) => "M " + XY(p, num)
    case Line(p) => "L " + XY(p, num)
    case Curve(c1, c2, p) => "C " + XY(c1, num) + ", " + XY(c2, num) + ", " + XY(p, num)
  }

  /** Each command after the first, preceded by one space. */
  function RestText(cmds: seq<Cmd>, num: real -> string): string {
    if |cmds| == 0 then "" else " " + CmdText(cmds[0], num) + RestText(cmds[1..], num)
  }

  /** The commands printed one after another, separated by single spaces. */
  function Render(cmds: seq<Cmd>, num: real -> string): string {
    if |cmds| == 0 then "" else CmdText(cmds[0], num) + RestText(cmds[1..], num)
  }

  lemma {:induction false} RestTextSnoc(cmds: seq<Cmd>, c: Cmd, num: real -> string)
    ensures RestText(cmds + [c], num) == RestText(cmds, num) + " " + CmdText(c, num)
    decreases |cmds|
  {
    if |cmds| == 0 {
      assert cmds + [c] == [c];
      assert [c][1..] == [];
    } else {
      assert (cmds + [c])[0] == cmds[0];
      assert (cmds + [c])[1..] == cmds[1..] + [c];
      RestTextSnoc(cmds[1..], c, num);
    }
  }

  /** Appending a command to a non-empty path appends one space and its text. */
  lemma RenderSnoc(cmds: seq<Cmd>, c: Cmd, num: real -> string)
    requires |cmds| > 0
    ensures Render(cmds + [c], num) == Render(cmds, num) + " " + CmdText(c, num)
  {
    assert (cmds + [c])[0] == cmds[0];
    assert (cmds + [c])[1..] == cmds[1..] + [c];
    RestTextSnoc(cmds[1..], c, num);
  }

  /** `parts.join(sep)` */
  function Join(parts: seq<string>, sep: string): string {
    if |parts| == 0 then ""
    else if |parts| == 1 then parts[0]
    else parts[0] + sep + Join(parts[1..], sep)
  }

  /** One "L" command per point. */
  function Lines(pts: seq<Point>): (cmds: seq<Cmd>)
    ensures |cmds| == |pts|
    ensures forall i :: 0 <= i < |pts| ==> cmds[i] == Line(pts[i])
  {
    seq(|pts|, i requires 0 <= i < |pts| => Line(pts[i]))
  }

  /** The straight-line path through `pts`: "M" to the first, then "L" to each later one. */
  function Polyline(pts: seq<Point>): (cmds: seq<Cmd>)
    ensures |cmds| == |pts|
  {
    if |pts| == 0 then [] else [Move(pts[0])] + Lines(pts[1..])
  }

  /** A straight-line path visits exactly its points, in order. */
  lemma EndsPolyline(pts: seq<Point>)
    ensures Ends(Polyline(pts)) == pts
  {
    var e := Ends(Polyline(pts));
    forall i | 0 <= i < |pts| ensures e[i] == pts[i] {
      if i > 0 {
        assert Polyline(pts)[i] == Lines(pts[1..])[i - 1];
      }
    }
  }

  /** The polyline is "M" followed by "L" commands only. */
  lemma PolylineShape(pts: seq<Point>)
    requires |pts| > 0
    ensures Polyline(pts)[0] == Move(pts[0])
    ensures forall i :: 1 <= i < |pts| ==> Polyline(pts)[i] == Line(pts[i])
  {
    forall i | 1 <= i < |pts| ensures Polyline(pts)[i] == Line(pts[i]) {
      assert Polyline(pts)[i] == Lines(pts[1..])[i - 1];
    }
  }
}
