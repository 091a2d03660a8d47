/**
 * The measurement arithmetic of components/analysis.py: the distance
 * between two points and the shoelace area of a polygon, exactly as the
 * NumPy expressions compute them (`np.dot` against `np.roll(·, 1)`).
 * Coordinates are reals; the square root of the distance is not taken.
 */
module Analysis {

  datatype Point = Point(x: real, y: real)

  function Abs(v: real): real { if v < 0.0 then -v else v }

  /** `(points[1][0] - points[0][0])**2 + (points[1][1] - points[0][1])**2`. */
  function DistanceSquared(p: Point, q: Point): (r: real)
    ensures r >= 0.0
  {
    var dx, dy := q.x - p.x, q.y - p.y;
    SquareNonneg(dx);
    SquareNonneg(dy);
    dx * dx + dy * dy
  }

  lemma SquareNonneg(v: real)
    ensures v * v >= 0.0
  {
    if v < 0.0 { assert v * v == (-v) * (-v); }
  }

  /** The distance does not depend on which point comes first. */
  lemma DistanceSymmetric(p: Point, q: Point)
    ensures DistanceSquared(p, q) == DistanceSquared(q, p)
  {
    assert (q.x - p.x) * (q.x - p.x) == (p.x - q.x) * (p.x - q.x);
    assert (q.y - p.y) * (q.y - p.y) == (p.y - q.y) * (p.y - q.y);
  }

  function Xs(p: seq<Point>): (r: seq<real>)
    ensures |r| == |p| && forall i | 0 <= i < |p| :: r[i] == p[i].x
  {
    seq(|p|, i requires 0 <= i < |p| => p[i].x)
  }

  function Ys(p: seq<Point>): (r: seq<real>)
    ensures |r| == |p| && forall i | 0 <= i < |p| :: r[i] == p[i].y
  {
    seq(|p|, i requires 0 <= i < |p| => p[i].y)
  }

  /** `np.dot` of two vectors of one length. */
  function Dot(a: seq<real>, b: seq<real>): real
    requires |a| == |b|
  {
    if a == [] then 0.0 else a[0] * b[0] + Dot(a[1..], b[1..])
  }

  /** `np.roll(s, 1)`: the last element moves to the front. */
  function Roll(s: seq<real>): (r: seq<real>)
    requires |s| > 0
    ensures |r| == |s| && r[0] == s[|s| - 1]
    ensures forall i | 1 <= i < |s| :: r[i] == s[i - 1]
  {
    [s[|s| - 1]] + s[..|s| - 1]
  }

  /** Twice the signed area, as lines 36-37 compute it. */
  function Shoelace(p: seq<Point>): real
    requires |p| > 0
  {
    Dot(Xs(p), Roll(Ys(p))) - Dot(Ys(p), Roll(Xs(p)))
  }

  /** `0.5 * np.abs(...)`. */
  function PolygonArea(p: seq<Point>): (r: real)
    requires |p| > 0
    ensures r >= 0.0
  {
    0.5 * Abs(Shoelace(p))
  }

  // The reference definition: the cross products of the polygon's edges.

  /** The cross product contribution of the edge from a to b. */
  function Cross(a: Point, b: Point): real {
    b.x * a.y - b.y * a.x
  }

  /** The cross products along the open chain p[0], p[1], …, p[n-1]. */
  function Chain(p: seq<Point>): real {
    if |p| < 2 then 0.0 else Cross(p[0], p[1]) + Chain(p[1..])
  }

  /** The closed polygon: the chain and the edge from the last point back to the first. */
  function Cycle(p: seq<Point>): real
    requires |p| > 0
  {
    Cross(p[|p| - 1], p[0]) + Chain(p)
  }

  lemma {:induction false} DotChain(p: seq<Point>)
    requires |p| > 0
    ensures Dot(Xs(p[1..]), Ys(p[..|p| - 1])) - Dot(Ys(p[1..]), Xs(p[..|p| - 1])) == Chain(p)
  {
    if |p| >= 2 {
      var q := p[1..];
      DotChain(q);
      assert Xs(p[1..])[1..] == Xs(q[1..]);
      assert Ys(p[..|p| - 1])[1..] == Ys(q[..|q| - 1]);
      assert Ys(p[1..])[1..] == Ys(q[1..]);
      assert Xs(p[..|p| - 1])[1..] == Xs(q[..|q| - 1]);
    }
  }

  /** The NumPy expression is the closed sum of edge cross products. */
  lemma ShoelaceIsCycle(p: seq<Point>)
    requires |p| > 0
    ensures Shoelace(p) == Cycle(p)
  {
    var n := |p|;
    DotChain(p);
    assert Roll(Ys(p))[1..] == Ys(p[..n - 1]);
    assert Roll(Xs(p))[1..] == Xs(p[..n - 1]);
    assert Xs(p)[1..] == Xs(p[1..]);
    assert Ys(p)[1..] == Ys(p[1..]);
  }

  lemma {:induction false} ChainAppend(p: seq<Point>, b: Point)
    requires |p| > 0
    ensures Chain(p + [b]) == Chain(p) + Cross(p[|p| - 1], b)
  {
    if |p| >= 2 {
      ChainAppend(p[1..], b);
      assert (p + [b])[1..] == p[1..] + [b];
    }
  }

  /** Starting the polygon at its second vertex gives the same area. */
  lemma RotateArea(p: seq<Point>)
    requires |p| > 0
    ensures PolygonArea(p[1..] + [p[0]]) == PolygonArea(p)
  {
    var q := p[1..] + [p[0]];
    ShoelaceIsCycle(p);
    ShoelaceIsCycle(q);
    if |p| >= 2 {
      ChainAppend(p[1..], p[0]);
      assert q[|q| - 1] == p[0] && q[0] == p[1];
    } else {
      assert q == p;
    }
  }

  /** Any cyclic shift of the vertices gives the same area. */
  lemma {:induction false} ShiftArea(p: seq<Point>, k: nat)
    requires k <= |p| && |p| > 0
    ensures PolygonArea(p[k..] + p[..k]) == PolygonArea(p)
  {
    if k > 0 {
      ShiftArea(p, k - 1);
      var q := p[k - 1..] + p[..k - 1];
      RotateArea(q);
      assert q[1..] + [q[0]] == p[k..] + p[..k];
    } else {
      assert p[k..] + p[..k] == p;
    }
  }

  function Reverse(p: seq<Point>): (r: seq<Point>)
    ensures |r| == |p| && forall i | 0 <= i < |p| :: r[i] == p[|p| - 1 - i]
  {
    if p == [] then [] else Reverse(p[1..]) + [p[0]]
  }

  lemma {:induction false} ChainReverse(p: seq<Point>)
    ensures Chain(Reverse(p)) == -Chain(p)
  {
    if |p| >= 2 {
      ChainReverse(p[1..]);
      var r := Reverse(p[1..]);
      assert |r| > 0 && r[|r| - 1] == p[1];
      ChainAppend(r, p[0]);
    }
  }

  /** Walking the polygon backwards flips the sign of the sum, not the area. */
  lemma ReverseArea(p: seq<Point>)
    requires |p| > 0
    ensures Shoelace(Reverse(p)) == -Shoelace(p)
    ensures PolygonArea(Reverse(p)) == PolygonArea(p)
  {
    ShoelaceIsCycle(p);
    ShoelaceIsCycle(Reverse(p));
    CycleReverse(p);
  }

  lemma CycleReverse(p: seq<Point>)
    requires |p| > 0
    ensures Cycle(Reverse(p)) == -Cycle(p)
  {
    var r := Reverse(p);
    ChainReverse(p);
    assert r[|r| - 1] == p[0] && r[0] == p[|p| - 1];
    assert Cross(r[|r| - 1], r[0]) == -Cross(p[|p| - 1], p[0]);
  }

  /** The unit square, in either direction, has area 1. */
  lemma UnitSquare()
    ensures PolygonArea([Point(0.0, 0.0), Point(1.0, 0.0), Point(1.0, 1.0), Point(0.0, 1.0)]) == 1.0
  {
    var p := [Point(0.0, 0.0), Point(1.0, 0.0), Point(1.0, 1.0), Point(0.0, 1.0)];
    UnitSquareCycle();
    ShoelaceIsCycle(p);
  }

  lemma UnitSquareCycle()
    ensures Cycle([Point(0.0, 0.0), Point(1.0, 0.0), Point(1.0, 1.0), Point(0.0, 1.0)]) == -2.0
  {
    var a, b, c, d := Point(0.0, 0.0), Point(1.0, 0.0), Point(1.0, 1.0), Point(0.0, 1.0);
    var p := [a, b, c, d];
    assert p[1..] == [b, c, d] && p[2..] == [c, d] && p[3..] == [d];
    assert Chain([d]) == 0.0;
    assert Chain([c, d]) == Cross(c, d) + Chain([d]) by { assert [c, d][1..] == [d]; }
    assert Chain([b, c, d]) == Cross(b, c) + Chain([c, d]) by { assert [b, c, d][1..] == [c, d]; }
    assert Chain(p) == Cross(a, b) + Chain([b, c, d]);
    assert Cross(a, b) == 0.0 && Cross(b, c) == -1.0 && Cross(c, d) == -1.0 && Cross(d, a) == 0.0;
    assert Cycle(p) == -2.0;
  }

  datatype Measurement = Distance(squared: real) | Area(area: real) | NoMeasurement

  /**
   * `show_measurements`: a distance for exactly two points of type
   * "Distance", an area for more than two points of type "Area", nothing
   * otherwise.
   */
  function ShowMeasurements(points: seq<Point>, measurementType: string): (r: Measurement)
    ensures r.Distance? <==> measurementType == "Distance" && |points| == 2
    ensures r.Area? <==> measurementType == "Area" && |points| > 2
    ensures r.Distance? ==> r.squared == DistanceSquared(points[0], points[1])
    ensures r.Area? ==> r.area == PolygonArea(points) >= 0.0
  {
    if measurementType == "Distance" && |points| == 2 then Distance(DistanceSquared(points[0], points[1]))
    else if measurementType == "Area" && |points| > 2 then Area(PolygonArea(points))
    else NoMeasurement
  }
}
