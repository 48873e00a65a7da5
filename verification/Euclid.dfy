/** Plane geometry over exact reals: distances and the clamped projection onto a segment. */
module Euclid {

  datatype Point = Point(x: real, y: real)

  /** A cell of a grid, named by two indices. */
  type Cell = (int, int)

  function Min(a: real, b: real): real { if a <= b then a else b }

  function Max(a: real, b: real): real { if a >= b then a else b }

  /** A product kept as one term, so that equal factors give equal products. */
  function Times(a: real, b: real): real { a * b }

  function Abs(a: real): real { if a >= 0.0 then a else -a }

  /** The smallest integer not below x. */
  function Ceil(x: real): int { -((-x).Floor) }

  /** Squared Euclidean distance. */
  function Dist2(a: Point, b: Point): real {
    (a.x - b.x) * (a.x - b.x) + (a.y - b.y) * (a.y - b.y)
  }

  /** A distance function, standing for the library's hypotenuse routine. */
  type Hypot = (Point, Point) -> real

  /** What the hypotenuse routine computes: the non-negative root of the squared distance. */
  ghost predicate IsEuclidean(hypot: Hypot) {
    forall a, b :: hypot(a, b) >= 0.0 && hypot(a, b) * hypot(a, b) == Dist2(a, b)
  }

  /** distance(a, b) <= r, decided on squares; nothing lies within a negative radius. */
  predicate Within(a: Point, b: Point, r: real) {
    r >= 0.0 && Dist2(a, b) <= r * r
  }

  // The solver simplifies comparisons of products with zero too eagerly to use them again;
  // naming the product keeps the fact.

  lemma Product(a: real, b: real) returns (p: real)
    ensures p == a * b
    ensures a >= 0.0 && b >= 0.0 ==> p >= 0.0
    ensures a > 0.0 && b > 0.0 ==> p > 0.0
  {
    p := a * b;
  }

  lemma Square(a: real) returns (s: real)
    ensures s == a * a && s >= 0.0
    ensures s == 0.0 <==> a == 0.0
  {
    if a >= 0.0 {
      s := Product(a, a);
    } else {
      s := Product(-a, -a);
    }
  }

  lemma SquareOrder(x: real, y: real)
    requires 0.0 <= y
    ensures x * x <= y * y ==> x <= y
    ensures 0.0 <= x <= y ==> x * x <= y * y
  {
    var _ := Product(x - y, x + y);
    var _ := Product(y - x, x + y);
    assert (x - y) * (x + y) == x * x - y * y;
    assert (y - x) * (x + y) == y * y - x * x;
  }

  /** Comparing squares decides exactly the comparison the program makes. */
  lemma WithinIsDistance(hypot: Hypot, a: Point, b: Point, r: real)
    requires IsEuclidean(hypot)
    ensures Within(a, b, r) <==> hypot(a, b) <= r
  {
    var d := hypot(a, b);
    if r >= 0.0 {
      SquareOrder(d, r);
    }
  }

  lemma CauchySchwarz(ux: real, uy: real, vx: real, vy: real, m: real, n: real)
    requires 0.0 <= m && 0.0 <= n
    requires m * m == ux * ux + uy * uy && n * n == vx * vx + vy * vy
    ensures ux * vx + uy * vy <= m * n
  {
    var dot := ux * vx + uy * vy;
    var det := ux * vy - uy * vx;
    calc {
      (m * n) * (m * n);
      (m * m) * (n * n);
      (ux * ux + uy * uy) * (vx * vx + vy * vy);
      dot * dot + det * det;
    }
    assert det * det >= 0.0;
    assert 0.0 <= m * n;
    SquareOrder(dot, m * n);
  }

  lemma HypotBasics(hypot: Hypot, a: Point, b: Point)
    requires IsEuclidean(hypot)
    ensures hypot(a, b) >= 0.0
    ensures hypot(a, b) == hypot(b, a)
    ensures hypot(a, b) == 0.0 <==> a == b
  {
    var d, e := hypot(a, b), hypot(b, a);
    assert d * d == Dist2(a, b) == Dist2(b, a) == e * e;
    SquareOrder(d, e);
    SquareOrder(e, d);
    var r := Square(d);
    if a != b {
      SumOfSquares(a.x - b.x, a.y - b.y);
    }
  }

  /** The triangle inequality, derived from the definition of distance. */
  lemma Triangle(hypot: Hypot, a: Point, b: Point, c: Point)
    requires IsEuclidean(hypot)
    ensures hypot(a, c) <= hypot(a, b) + hypot(b, c)
  {
    var m, n := hypot(a, b), hypot(b, c);
    var ux, uy, vx, vy := a.x - b.x, a.y - b.y, b.x - c.x, b.y - c.y;
    assert m * m == ux * ux + uy * uy && n * n == vx * vx + vy * vy;
    CauchySchwarz(ux, uy, vx, vy, m, n);
    calc {
      hypot(a, c) * hypot(a, c);
      (a.x - c.x) * (a.x - c.x) + (a.y - c.y) * (a.y - c.y);
      { assert a.x - c.x == ux + vx && a.y - c.y == uy + vy; }
      (ux + vx) * (ux + vx) + (uy + vy) * (uy + vy);
      m * m + n * n + 2.0 * (ux * vx + uy * vy);
    }
    assert (m + n) * (m + n) == m * m + n * n + 2.0 * (m * n);
    SquareOrder(hypot(a, c), m + n);
  }

  /** Points within r of each other are within r along each axis. */
  lemma WithinAxes(p: Point, q: Point, r: real)
    requires Within(p, q, r)
    ensures -r <= p.x - q.x <= r && -r <= p.y - q.y <= r
  {
    var x := Square(p.x - q.x);
    var y := Square(p.y - q.y);
    SquareOrder(p.x - q.x, r);
    SquareOrder(p.y - q.y, r);
    Negated(p.x - q.x, r);
    Negated(p.y - q.y, r);
  }

  lemma Negated(d: real, r: real)
    requires r >= 0.0 && d * d <= r * r
    ensures -r <= d
  {
    assert (-d) * (-d) == d * d;
    SquareOrder(-d, r);
  }

  // ----- segments

  function Clamp(t: real): real { Max(0.0, Min(1.0, t)) }

  function Mix(a: real, b: real, t: real): real { a + t * (b - a) }

  /** The point a fraction t of the way from a to b. */
  function Along(a: Point, b: Point, t: real): Point {
    Point(Mix(a.x, b.x, t), Mix(a.y, b.y, t))
  }

  lemma SumOfSquares(dx: real, dy: real)
    ensures dx * dx + dy * dy >= 0.0
    ensures dx != 0.0 || dy != 0.0 ==> dx * dx + dy * dy > 0.0 && dx * dx + dy * dy != 0.0
  {
    var u := Square(dx);
    var v := Square(dy);
  }

  lemma Quotient(n: real, d: real)
    requires d != 0.0
    ensures d * (n / d) == n
  {
  }

  /** How far along a displacement (dx, dy) the foot of the perpendicular from (px, py) falls. */
  function Foot(px: real, py: real, dx: real, dy: real): real
    requires dx != 0.0 || dy != 0.0
  {
    SumOfSquares(dx, dy);
    (px * dx + py * dy) / (dx * dx + dy * dy)
  }

  /** The clamped projection of p onto the segment from a to b. */
  function Project(p: Point, a: Point, b: Point): Point {
    var dx, dy := b.x - a.x, b.y - a.y;
    if dx == 0.0 && dy == 0.0 then a
    else Along(a, b, Clamp(Foot(p.x - a.x, p.y - a.y, dx, dy)))
  }

  /** Distance from p to the segment, compared with r. */
  predicate NearSegment(p: Point, a: Point, b: Point, r: real) {
    Within(p, Project(p, a, b), r)
  }

  /** Squared distance from offset (px, py) to the fraction t of displacement (dx, dy). */
  function Offset2(px: real, py: real, dx: real, dy: real, t: real): real {
    (px - t * dx) * (px - t * dx) + (py - t * dy) * (py - t * dy)
  }

  /** Squared distance along a displacement is a parabola in the fraction t. */
  lemma Parabola(px: real, py: real, dx: real, dy: real, t: real)
    requires dx != 0.0 || dy != 0.0
    ensures Offset2(px, py, dx, dy, t)
         == px * px + py * py + (dx * dx + dy * dy) * (t * t - 2.0 * t * Foot(px, py, dx, dy))
  {
    SumOfSquares(dx, dy);
    var len, top := dx * dx + dy * dy, Foot(px, py, dx, dy);
    Quotient(px * dx + py * dy, len);
    calc {
      (px - t * dx) * (px - t * dx) + (py - t * dy) * (py - t * dy);
      px * px + py * py + t * t * len - 2.0 * t * (px * dx + py * dy);
      px * px + py * py + t * t * len - 2.0 * t * (len * top);
      { assert t * (len * top) == len * (t * top); }
      px * px + py * py + len * (t * t) - 2.0 * (len * (t * top));
      px * px + py * py + len * (t * t - 2.0 * t * top);
    }
  }

  lemma Scale(c: real, u: real, v: real)
    requires c >= 0.0 && u <= v
    ensures c * u <= c * v
  {
    var _ := Product(c, v - u);
  }

  lemma ClampMinimises(t: real, top: real)
    requires 0.0 <= t <= 1.0
    ensures Clamp(top) * Clamp(top) - 2.0 * Clamp(top) * top <= t * t - 2.0 * t * top
  {
    var s := Clamp(top);
    assert (t * t - 2.0 * t * top) - (s * s - 2.0 * s * top) == (t - s) * (t + s - 2.0 * top);
    if top < 0.0 {
      var _ := Product(t, t - 2.0 * top);
    } else if top > 1.0 {
      var _ := Product(1.0 - t, 2.0 * top - 1.0 - t);
    } else {
      var _ := Square(t - s);
    }
  }

  lemma AlongOffset(p: Point, a: Point, b: Point, t: real)
    ensures Dist2(p, Along(a, b, t)) == Offset2(p.x - a.x, p.y - a.y, b.x - a.x, b.y - a.y, t)
  {
    assert p.x - Along(a, b, t).x == p.x - a.x - t * (b.x - a.x);
    assert p.y - Along(a, b, t).y == p.y - a.y - t * (b.y - a.y);
  }

  lemma NoNearerOffset(px: real, py: real, dx: real, dy: real, t: real)
    requires 0.0 <= t <= 1.0
    requires dx != 0.0 || dy != 0.0
    ensures Offset2(px, py, dx, dy, Clamp(Foot(px, py, dx, dy))) <= Offset2(px, py, dx, dy, t)
  {
    var foot := Foot(px, py, dx, dy);
    var s := Clamp(foot);
    Parabola(px, py, dx, dy, s);
    Parabola(px, py, dx, dy, t);
    ClampMinimises(t, foot);
    SumOfSquares(dx, dy);
    Scale(dx * dx + dy * dy, s * s - 2.0 * s * foot, t * t - 2.0 * t * foot);
  }

  lemma NoNearer(p: Point, a: Point, b: Point, t: real)
    requires 0.0 <= t <= 1.0
    ensures Dist2(p, Project(p, a, b)) <= Dist2(p, Along(a, b, t))
  {
    var px, py, dx, dy := p.x - a.x, p.y - a.y, b.x - a.x, b.y - a.y;
    if dx == 0.0 && dy == 0.0 {
      assert Along(a, b, t) == a by { assert t * 0.0 == 0.0; }
    } else {
      AlongOffset(p, a, b, Clamp(Foot(px, py, dx, dy)));
      AlongOffset(p, a, b, t);
      NoNearerOffset(px, py, dx, dy, t);
    }
  }

  /** The clamped projection is on the segment, and no point of the segment is nearer to p. */
  lemma ProjectIsNearest(p: Point, a: Point, b: Point)
    ensures exists t :: 0.0 <= t <= 1.0 && Project(p, a, b) == Along(a, b, t)
    ensures forall t :: 0.0 <= t <= 1.0 ==> Dist2(p, Project(p, a, b)) <= Dist2(p, Along(a, b, t))
  {
    forall t | 0.0 <= t <= 1.0
      ensures Dist2(p, Project(p, a, b)) <= Dist2(p, Along(a, b, t))
    {
      NoNearer(p, a, b, t);
    }
    var dx, dy := b.x - a.x, b.y - a.y;
    if dx == 0.0 && dy == 0.0 {
      assert Along(a, b, 0.0) == a;
    } else {
      assert Project(p, a, b) == Along(a, b, Clamp(Foot(p.x - a.x, p.y - a.y, dx, dy)));
    }
  }

  /** p is near a segment exactly when it is within r of some point of it. */
  lemma NearSegmentMeaning(p: Point, a: Point, b: Point, r: real)
    ensures NearSegment(p, a, b, r) <==> exists t :: 0.0 <= t <= 1.0 && Within(p, Along(a, b, t), r)
  {
    ProjectIsNearest(p, a, b);
  }

  lemma NearPoint(p: Point, a: Point, b: Point, r: real) returns (t: real, q: Point)
    requires NearSegment(p, a, b, r)
    ensures 0.0 <= t <= 1.0 && q == Along(a, b, t) && Within(p, q, r)
  {
    NearSegmentMeaning(p, a, b, r);
    t :| 0.0 <= t <= 1.0 && Within(p, Along(a, b, t), r);
    q := Along(a, b, t);
  }

  lemma NearBecause(p: Point, a: Point, b: Point, r: real, t: real, q: Point)
    requires 0.0 <= t <= 1.0 && q == Along(a, b, t) && Within(p, q, r)
    ensures NearSegment(p, a, b, r)
  {
    NearSegmentMeaning(p, a, b, r);
  }

  lemma AlongReversed(a: Point, b: Point, t: real)
    ensures Along(a, b, t) == Along(b, a, 1.0 - t)
  {
  }

  lemma ReversedNear(p: Point, a: Point, b: Point, r: real)
    requires NearSegment(p, a, b, r)
    ensures NearSegment(p, b, a, r)
  {
    var t, q := NearPoint(p, a, b, r);
    AlongReversed(a, b, t);
    NearBecause(p, b, a, r, 1.0 - t, q);
  }

  /** A segment is near p whichever end it is flown from. */
  lemma NearSegmentReversed(p: Point, a: Point, b: Point, r: real)
    ensures NearSegment(p, a, b, r) <==> NearSegment(p, b, a, r)
  {
    if NearSegment(p, a, b, r) { ReversedNear(p, a, b, r); }
    if NearSegment(p, b, a, r) { ReversedNear(p, b, a, r); }
  }

  /** Splitting a segment at one of its own points leaves what is near it unchanged. */
  lemma NearSegmentSplit(p: Point, a: Point, b: Point, u: real, m: Point, r: real)
    requires 0.0 <= u <= 1.0 && m == Along(a, b, u)
    ensures NearSegment(p, a, b, r) <==> NearSegment(p, a, m, r) || NearSegment(p, m, b, r)
  {
    AlongReversed(a, b, u);
    NearSegmentReversed(p, a, b, r);
    NearSegmentReversed(p, m, b, r);
    if NearSegment(p, a, b, r) {
      var t, q := NearPoint(p, a, b, r);
      if t <= u {
        IntoFirstPart(p, a, b, u, m, r, t, q);
      } else {
        AlongReversed(a, b, t);
        IntoFirstPart(p, b, a, 1.0 - u, m, r, 1.0 - t, q);
      }
    }
    if NearSegment(p, a, m, r) {
      OutOfFirstPart(p, a, b, u, m, r);
    }
    if NearSegment(p, m, b, r) {
      OutOfFirstPart(p, b, a, 1.0 - u, m, r);
    }
  }

  lemma IntoFirstPart(p: Point, a: Point, b: Point, u: real, m: Point, r: real, t: real, q: Point)
    requires 0.0 <= t <= u <= 1.0 && m == Along(a, b, u)
    requires q == Along(a, b, t) && Within(p, q, r)
    ensures NearSegment(p, a, m, r)
  {
    var v := 0.0;
    if u > 0.0 {
      UnitQuotient(t, u);
      Quotient(t, u);
      v := t / u;
    }
    InnerPoint(a, b, u, m, v, t);
    NearBecause(p, a, m, r, v, q);
  }

  lemma OutOfFirstPart(p: Point, a: Point, b: Point, u: real, m: Point, r: real)
    requires 0.0 <= u <= 1.0 && m == Along(a, b, u)
    requires NearSegment(p, a, m, r)
    ensures NearSegment(p, a, b, r)
  {
    var v, q := NearPoint(p, a, m, r);
    var t := Product(v, u);
    Scale(v, u, 1.0);
    InnerPoint(a, b, u, m, v, t);
    NearBecause(p, a, b, r, t, q);
  }

  lemma InnerPoint(a: Point, b: Point, u: real, m: Point, v: real, t: real)
    requires m == Along(a, b, u) && t == v * u
    ensures Along(a, m, v) == Along(a, b, t)
  {
    InnerCoordinate(a.x, b.x - a.x, m.x, u, v, t);
    InnerCoordinate(a.y, b.y - a.y, m.y, u, v, t);
  }

  lemma InnerCoordinate(c: real, d: real, m: real, u: real, v: real, t: real)
    requires m == c + u * d && t == v * u
    ensures c + v * (m - c) == c + t * d
  {
    var e := u * d;
    assert m - c == e;
    assert v * e == t * d;
  }

  lemma UnitQuotient(n: real, d: real)
    requires d != 0.0
    requires 0.0 <= n <= d || d <= n <= 0.0
    ensures 0.0 <= n / d <= 1.0
  {
    var q := n / d;
    Quotient(n, d);
    if d > 0.0 {
      if q < 0.0 { var _ := Product(-q, d); }
      if q > 1.0 { var _ := Product(q - 1.0, d); }
    } else {
      if q < 0.0 { var _ := Product(-q, -d); }
      if q > 1.0 { var _ := Product(q - 1.0, -d); }
    }
  }
}
