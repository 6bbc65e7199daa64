/** Values shared by the animated-background models: optional values, pixel
    points, Manhattan distance, the length of an axis-aligned route and the
    `Math.floor(Math.random() * n)` index pick that every generator in the
    page uses. */
module Common {

  datatype Option<T> = None | Some(value: T)

  /** A pixel position. JavaScript numbers are modelled as exact reals. */
  datatype Point = Point(x: real, y: real)

  function Abs(r: real): (a: real)
    ensures a >= 0.0 && (a == r || a == -r)
  {
    if r < 0.0 then -r else r
  }

  function Min(a: real, b: real): (m: real)
    ensures m <= a && m <= b && (m == a || m == b)
  {
    if a <= b then a else b
  }

  function Max(a: real, b: real): (m: real)
    ensures m >= a && m >= b && (m == a || m == b)
  {
    if a >= b then a else b
  }

  /** `Math.abs(a.x - b.x) + Math.abs(a.y - b.y)`. */
  function Manhattan(a: Point, b: Point): (d: real)
    ensures d >= 0.0
    ensures d == 0.0 <==> a == b
  {
    Abs(a.x - b.x) + Abs(a.y - b.y)
  }

  /** `Math.floor(r * n)` for a draw `r` of `Math.random()`, which lies in [0, 1):
      always a valid index into a list of length `n`. */
  function Pick(r: real, n: nat): (i: nat)
    requires 0.0 <= r < 1.0 && n > 0
    ensures i < n
  {
    var t := r * n as real;
    ScaleBelow(r, n as real);
    assert 0.0 <= t < n as real;
    t.Floor
  }

  /** A fraction in [0, 1) of a positive amount lies in [0, amount). */
  lemma ScaleBelow(r: real, x: real)
    requires 0.0 <= r < 1.0 && x > 0.0
    ensures 0.0 <= r * x < x
  {
    MulNonNeg(r, x);
    MulPos(1.0 - r, x);
    assert (1.0 - r) * x == x - r * x;
  }

  /** A point a fraction t of the way from a to b lies between them. */
  lemma LerpBetween(a: real, b: real, t: real)
    requires 0.0 <= t <= 1.0
    ensures Min(a, b) <= a + (b - a) * t <= Max(a, b)
  {
    if a <= b {
      MulNonNeg(b - a, t);
      MulNonNeg(b - a, 1.0 - t);
      assert (b - a) * (1.0 - t) == (b - a) - (b - a) * t;
    } else {
      MulNonNeg(a - b, t);
      MulNonNeg(a - b, 1.0 - t);
      assert (a - b) * t == -((b - a) * t);
      assert (a - b) * (1.0 - t) == (b - a) * t - (b - a);
    }
  }

  /** Signs of products, kept out of the proofs that use them. */
  lemma MulNonNeg(a: real, b: real)
    requires a >= 0.0 && b >= 0.0
    ensures a * b >= 0.0
  {
  }

  lemma MulPos(a: real, b: real)
    requires a > 0.0 && b > 0.0
    ensures a * b > 0.0
  {
  }

  /** A list built by appending the elements of `s` one at a time. */
  lemma PrefixSnoc<T>(s: seq<T>, i: nat)
    requires i < |s|
    ensures s[..i + 1] == s[..i] + [s[i]]
  {
  }

  /** A random draw, as `Math.random()` returns it. */
  predicate IsDraw(r: real) {
    0.0 <= r < 1.0
  }

  /** Consecutive points share an x or a y, so the Euclidean length of each
      step is the absolute difference along the one axis that changes. */
  predicate AxisAligned(pts: seq<Point>) {
    forall i :: 0 <= i < |pts| - 1 ==> pts[i].x == pts[i + 1].x || pts[i].y == pts[i + 1].y
  }

  lemma ManhattanTriangle(a: Point, b: Point, c: Point)
    ensures Manhattan(a, c) <= Manhattan(a, b) + Manhattan(b, c)
  {
  }

  /** `totalPathLength` on an axis-aligned route: the sum of its step lengths,
      never shorter than the Manhattan distance between its ends. */
  function TotalLength(pts: seq<Point>): (len: real)
    requires AxisAligned(pts)
    ensures len >= 0.0
    ensures |pts| >= 1 ==> len >= Manhattan(pts[0], pts[|pts| - 1])
  {
    if |pts| < 2 then 0.0
    else
      var rest := TotalLength(pts[1..]);
      ManhattanTriangle(pts[0], pts[1], pts[|pts| - 1]);
      Manhattan(pts[0], pts[1]) + rest
  }
}
