/** The even-odd (ray casting) containment test of `is_within_boundary`.
    A horizontal ray is cast from the point towards growing `x`; every edge
    it crosses flips the answer. The vertex list is read cyclically: edge `i`
    runs from vertex `i` to vertex `(i + 1) mod n`. */
module BoundaryTest {
  import opened Outcomes
  import opened Geometry

  /** The `x` at which the line through `p1` and `p2` reaches height `y`.
      Only defined for a non-horizontal edge, which is what makes the
      division safe. */
  function Intercept(y: real, p1: Point, p2: Point): (r: real)
    requires p1.y != p2.y
    ensures y == p1.y ==> r == p1.x
    ensures y == p2.y ==> r == p2.x
  {
    (y - p1.y) * (p2.x - p1.x) / (p2.y - p1.y) + p1.x
  }

  /** The crossing condition of one edge: the point's `y` lies in the
      half-open span (min, max] of the edge's `y`s, the point is not to the
      right of both ends, and it is on or left of the edge's intercept
      (a vertical edge always counts). The intercept is only evaluated when
      the span is non-empty, so never on a horizontal edge. */
  predicate Crosses(pt: Point, p1: Point, p2: Point)
  {
    pt.y > Min(p1.y, p2.y) && pt.y <= Max(p1.y, p2.y) && pt.x <= Max(p1.x, p2.x) &&
    (p1.x == p2.x || pt.x <= Intercept(pt.y, p1, p2))
  }

  /** The index after `i` on a cycle of `n` vertices, `(i + 1) mod n`. */
  function Succ(i: nat, n: nat): (j: nat)
    requires i < n
    ensures j < n
    ensures j == (i + 1) % n
  {
    if i + 1 < n then i + 1 else 0
  }

  /** `i mod n` for the loop counter of `point_in_polygon`, which runs to `n`. */
  lemma ModCycle(i: nat, n: nat)
    requires 0 < n && i <= n
    ensures i % n == if i < n then i else 0
  {
  }

  /** Edge `i` of the implicitly closed polygon crosses the ray from `pt`. */
  predicate EdgeCrosses(pt: Point, poly: seq<Point>, i: nat)
    requires i < |poly|
  {
    Crosses(pt, poly[i], poly[Succ(i, |poly|)])
  }

  /** The number of edges among the first `k` that the ray from `pt` crosses. */
  function Crossings(pt: Point, poly: seq<Point>, k: nat): (c: nat)
    requires k <= |poly|
    ensures c <= k
  {
    if k == 0 then 0
    else Crossings(pt, poly, k - 1) + (if EdgeCrosses(pt, poly, k - 1) then 1 else 0)
  }

  /** The even-odd rule: inside iff the ray crosses an odd number of edges. */
  predicate Inside(pt: Point, poly: seq<Point>)
  {
    Crossings(pt, poly, |poly|) % 2 == 1
  }

  /** The `inside` flag after the first `k` edges: each crossing flips it. */
  predicate Flipped(pt: Point, poly: seq<Point>, k: nat)
    requires k <= |poly|
  {
    if k == 0 then false else Flipped(pt, poly, k - 1) != EdgeCrosses(pt, poly, k - 1)
  }

  /** Flipping once per crossing leaves the flag set exactly when the number
      of crossings is odd. */
  lemma {:induction false} FlippedIsOddCrossings(pt: Point, poly: seq<Point>, k: nat)
    requires k <= |poly|
    ensures Flipped(pt, poly, k) == (Crossings(pt, poly, k) % 2 == 1)
  {
    if k > 0 {
      FlippedIsOddCrossings(pt, poly, k - 1);
      var c := Crossings(pt, poly, k - 1);
      if EdgeCrosses(pt, poly, k - 1) {
        assert Crossings(pt, poly, k) == c + 1;
        OddAfterOne(c);
      } else {
        assert Crossings(pt, poly, k) == c;
      }
    }
  }

  lemma OddAfterOne(c: nat)
    ensures ((c + 1) % 2 == 1) == (c % 2 != 1)
  {
  }

  /** `point_in_polygon`: the loop runs `n + 1` times, carrying the previous
      vertex in `p1x, p1y`. `xinters` starts unbound, as in Python; reading
      it is only possible when it was assigned in the same pass. */
  method PointInPolygon(point: Point, polygon: seq<Point>) returns (r: Result<bool>)
    ensures |polygon| == 0 ==> r == Err(EmptyPolygon)
    ensures |polygon| > 0 ==> r == Ok(Inside(point, polygon))
  {
    var x, y := point.x, point.y;
    var n := |polygon|;
    var inside := false;
    if n == 0 {
      return Err(EmptyPolygon);
    }
    var p1x, p1y := polygon[0].x, polygon[0].y;
    var xinters: Option<real> := None;
    for i := 0 to n + 1
      invariant Point(p1x, p1y) == polygon[if 0 < i <= n then i - 1 else 0]
      invariant inside == Flipped(point, polygon, if i == 0 then 0 else i - 1)
    {
      var j := i % n;
      ModCycle(i, n);
      var p2x, p2y := polygon[j].x, polygon[j].y;
      if y > Min(p1y, p2y) {
        if y <= Max(p1y, p2y) {
          if x <= Max(p1x, p2x) {
            if p1y != p2y {
              xinters := Some(Intercept(y, Point(p1x, p1y), Point(p2x, p2y)));
            }
            if p1x == p2x || x <= xinters.value {
              inside := !inside;
            }
          }
        }
      }
      assert inside == Flipped(point, polygon, i) by {
        if i > 0 {
          assert Crosses(point, Point(p1x, p1y), Point(p2x, p2y)) == EdgeCrosses(point, polygon, i - 1);
        }
      }
      p1x, p1y := p2x, p2y;
    }
    FlippedIsOddCrossings(point, polygon, n);
    return Ok(inside);
  }

  /** A horizontal (or zero-length) edge never flips the answer, so the
      intercept division is never reached with a zero denominator. */
  lemma HorizontalEdgeNeverCrosses(pt: Point, p1: Point, p2: Point)
    requires p1.y == p2.y
    ensures !Crosses(pt, p1, p2)
  {
  }

  /** Appending a copy of the first vertex, as the Surabaya boundaries do,
      leaves every answer unchanged: the extra edge has zero length. */
  lemma ClosingVertexIsRedundant(pt: Point, poly: seq<Point>)
    requires |poly| > 0
    ensures Inside(pt, poly + [poly[0]]) == Inside(pt, poly)
  {
    var q := poly + [poly[0]];
    ClosedPrefixCrossings(pt, poly, |poly|);
    HorizontalEdgeNeverCrosses(pt, poly[0], poly[0]);
    assert !EdgeCrosses(pt, q, |poly|);
  }

  lemma {:induction false} ClosedPrefixCrossings(pt: Point, poly: seq<Point>, k: nat)
    requires 0 < |poly| && k <= |poly|
    ensures Crossings(pt, poly + [poly[0]], k) == Crossings(pt, poly, k)
  {
    if k > 0 {
      ClosedPrefixCrossings(pt, poly, k - 1);
      var q := poly + [poly[0]];
      assert q[k - 1] == poly[k - 1];
      assert q[Succ(k - 1, |q|)] == poly[Succ(k - 1, |poly|)];
      assert EdgeCrosses(pt, q, k - 1) == EdgeCrosses(pt, poly, k - 1);
    }
  }

  /** The polygon read from vertex `r` on. */
  function Rotate(poly: seq<Point>, r: nat): (q: seq<Point>)
    requires r <= |poly|
    ensures |q| == |poly|
    ensures forall i :: 0 <= i < |q| ==> q[i] == poly[if i + r < |poly| then i + r else i + r - |poly|]
  {
    poly[r..] + poly[..r]
  }

  /** Starting the vertex list at another vertex traces the same polygon and
      gives the same answer. */
  lemma {:induction false} RotationInvariant(pt: Point, poly: seq<Point>, r: nat)
    requires r <= |poly|
    ensures Inside(pt, Rotate(poly, r)) == Inside(pt, poly)
  {
    if r > 0 {
      RotationInvariant(pt, poly, r - 1);
      var q := Rotate(poly, r - 1);
      assert Rotate(poly, r) == q[1..] + [q[0]];
      RotateOnceCrossings(pt, q);
    } else {
      assert Rotate(poly, 0) == poly;
    }
  }

  lemma RotateOnceCrossings(pt: Point, poly: seq<Point>)
    requires |poly| > 0
    ensures Crossings(pt, poly[1..] + [poly[0]], |poly|) == Crossings(pt, poly, |poly|)
  {
    var n := |poly|;
    var q := poly[1..] + [poly[0]];
    ShiftedCrossings(pt, poly, n - 1);
    assert q[Succ(n - 1, n)] == q[0] == poly[Succ(0, n)];
    assert EdgeCrosses(pt, q, n - 1) == EdgeCrosses(pt, poly, 0);
  }

  lemma {:induction false} ShiftedCrossings(pt: Point, poly: seq<Point>, k: nat)
    requires 0 < |poly| && k < |poly|
    ensures Crossings(pt, poly[1..] + [poly[0]], k) + (if EdgeCrosses(pt, poly, 0) then 1 else 0)
            == Crossings(pt, poly, k + 1)
  {
    if k > 0 {
      ShiftedCrossings(pt, poly, k - 1);
      var n := |poly|;
      var q := poly[1..] + [poly[0]];
      assert q[k - 1] == poly[k];
      assert q[Succ(k - 1, n)] == poly[Succ(k, n)];
      assert EdgeCrosses(pt, q, k - 1) == EdgeCrosses(pt, poly, k);
    }
  }

  /** A point above every vertex, at or below every vertex, or to the right
      of every vertex is reported outside: no edge passes the first three
      tests. */
  lemma FarPointIsOutside(pt: Point, poly: seq<Point>)
    requires (forall i :: 0 <= i < |poly| ==> poly[i].y < pt.y)
          || (forall i :: 0 <= i < |poly| ==> pt.y <= poly[i].y)
          || (forall i :: 0 <= i < |poly| ==> poly[i].x < pt.x)
    ensures !Inside(pt, poly)
  {
    NoCrossings(pt, poly, |poly|);
  }

  lemma {:induction false} NoCrossings(pt: Point, poly: seq<Point>, k: nat)
    requires k <= |poly|
    requires (forall i :: 0 <= i < |poly| ==> poly[i].y < pt.y)
          || (forall i :: 0 <= i < |poly| ==> pt.y <= poly[i].y)
          || (forall i :: 0 <= i < |poly| ==> poly[i].x < pt.x)
    ensures Crossings(pt, poly, k) == 0
  {
    if k > 0 {
      NoCrossings(pt, poly, k - 1);
      assert !EdgeCrosses(pt, poly, k - 1) by {
        var a, b := poly[k - 1], poly[Succ(k - 1, |poly|)];
        assert Min(a.y, b.y) == a.y || Min(a.y, b.y) == b.y;
      }
    }
  }

  /** On a non-horizontal edge, at a height within the edge's span, the
      intercept lies between the edge's two `x`s. */
  lemma InterceptBetween(y: real, p1: Point, p2: Point)
    requires p1.y != p2.y
    requires Min(p1.y, p2.y) <= y <= Max(p1.y, p2.y)
    ensures Min(p1.x, p2.x) <= Intercept(y, p1, p2) <= Max(p1.x, p2.x)
  {
    var t := (y - p1.y) / (p2.y - p1.y);
    var d := p2.x - p1.x;
    assert 0.0 <= t <= 1.0 by {
      if p1.y < p2.y {
        assert 0.0 <= y - p1.y <= p2.y - p1.y;
      } else {
        assert p2.y - p1.y <= y - p1.y <= 0.0;
      }
    }
    assert Intercept(y, p1, p2) == t * d + p1.x by {
      var a, q := y - p1.y, p2.y - p1.y;
      assert t * q == a;
      assert (a * d / q) * q == a * d;
      assert (t * d) * q == a * d;
    }
    if d >= 0.0 {
      assert 0.0 <= t * d;
      assert (1.0 - t) * d >= 0.0;
    } else {
      assert t * d <= 0.0;
      assert (1.0 - t) * d <= 0.0;
    }
  }

  /** For a point left of both ends, an edge crosses the ray exactly when
      one end lies below the point and the other does not. */
  lemma LeftEdgeCrosses(pt: Point, p1: Point, p2: Point)
    requires pt.x < p1.x && pt.x < p2.x
    ensures Crosses(pt, p1, p2) == ((p1.y < pt.y) != (p2.y < pt.y))
  {
    if pt.y > Min(p1.y, p2.y) && pt.y <= Max(p1.y, p2.y) && p1.x != p2.x {
      InterceptBetween(pt.y, p1, p2);
    }
  }

  /** Whether a vertex lies below the height of `pt`. */
  predicate Below(pt: Point, v: Point)
  {
    v.y < pt.y
  }

  /** For a point left of every vertex, the flag after the edges of the
      open path from vertex 0 to vertex `k` is set exactly when the path
      ends on the other side of the point's height than it started. */
  lemma {:induction false} LeftPathFlips(pt: Point, poly: seq<Point>, k: nat)
    requires k < |poly|
    requires forall i :: 0 <= i < |poly| ==> pt.x < poly[i].x
    ensures Flipped(pt, poly, k) == (Below(pt, poly[0]) != Below(pt, poly[k]))
  {
    if k > 0 {
      LeftPathFlips(pt, poly, k - 1);
      assert Succ(k - 1, |poly|) == k;
      LeftEdgeCrosses(pt, poly[k - 1], poly[k]);
    }
  }

  /** A point left of every vertex is reported outside: the ray crosses the
      boundary every time the closed vertex cycle passes the point's height,
      and a cycle passes it an even number of times. */
  lemma LeftIsOutside(pt: Point, poly: seq<Point>)
    requires forall i :: 0 <= i < |poly| ==> pt.x < poly[i].x
    ensures !Inside(pt, poly)
  {
    var n := |poly|;
    if n > 0 {
      LeftPathFlips(pt, poly, n - 1);
      assert Succ(n - 1, n) == 0;
      LeftEdgeCrosses(pt, poly[n - 1], poly[0]);
      assert !Flipped(pt, poly, n);
      FlippedIsOddCrossings(pt, poly, n);
    }
  }

  /** Every point strictly inside an axis-aligned rectangle is reported
      inside, whether the vertex list is left open or closed by repeating
      its first corner. */
  lemma RectangleInterior(a: real, b: real, c: real, d: real, pt: Point)
    requires a < pt.x < c && b < pt.y < d
    ensures var rect := [Point(a, b), Point(a, d), Point(c, d), Point(c, b)];
            Inside(pt, rect) && Inside(pt, rect + [rect[0]])
  {
    var rect := [Point(a, b), Point(a, d), Point(c, d), Point(c, b)];
    assert !EdgeCrosses(pt, rect, 0);
    assert !EdgeCrosses(pt, rect, 1);
    assert EdgeCrosses(pt, rect, 2);
    assert !EdgeCrosses(pt, rect, 3);
    assert Crossings(pt, rect, 2) == 0;
    assert Crossings(pt, rect, 3) == 1;
    assert Crossings(pt, rect, 4) == 1;
    ClosingVertexIsRedundant(pt, rect);
  }

  /** The unit scenario: in the closed square with corners (0,0) and (2,2),
      (1,1) is inside and (5,5) is outside. */
  lemma SquareScenario()
    ensures var square := [Point(0.0, 0.0), Point(0.0, 2.0), Point(2.0, 2.0), Point(2.0, 0.0), Point(0.0, 0.0)];
            Inside(Point(1.0, 1.0), square) && !Inside(Point(5.0, 5.0), square)
  {
    var square := [Point(0.0, 0.0), Point(0.0, 2.0), Point(2.0, 2.0), Point(2.0, 0.0), Point(0.0, 0.0)];
    var p := Point(1.0, 1.0);
    assert !EdgeCrosses(p, square, 0);
    assert !EdgeCrosses(p, square, 1);
    assert EdgeCrosses(p, square, 2);
    assert !EdgeCrosses(p, square, 3);
    assert !EdgeCrosses(p, square, 4);
    assert Crossings(p, square, 5) == 1;
    FarPointIsOutside(Point(5.0, 5.0), square);
  }
}
