/** Rings and polygons: even-odd containment, signed area and bounding boxes. */
module Rings {
  import opened Euclid
  import opened Options

  type Ring = seq<Point>

  /** An exterior ring followed by the rings of its holes. */
  type Polygon = seq<Ring>

  // ----- even-odd containment

  predicate Straddles(a: Point, b: Point, p: Point) {
    (a.y > p.y) != (b.y > p.y)
  }

  function Part(w: real, h: real, d: real): real
    requires h != 0.0
  {
    w * d / h
  }

  function Interpolate(x1: real, y1: real, x2: real, y2: real, y: real): real
    requires y1 != y2
  {
    Part(x2 - x1, y2 - y1, y - y1) + x1
  }

  /** Where the line through a and b meets the horizontal at height y. */
  function CrossingX(a: Point, b: Point, y: real): real
    requires a.y != b.y
  {
    Interpolate(a.x, a.y, b.x, b.y, y)
  }

  /** The rightward ray from p crosses the edge between a and b. */
  predicate Crosses(a: Point, b: Point, p: Point) {
    Straddles(a, b, p) && p.x < CrossingX(a, b, p.y)
  }

  /** Parity of the crossings of the edges between consecutive vertices. */
  ghost function PathParity(path: seq<Point>, p: Point): bool {
    |path| >= 2 &&
    PathParity(path[..|path| - 1], p) != Crosses(path[|path| - 1], path[|path| - 2], p)
  }

  /** Even-odd containment: the parity over all edges, the closing edge included. */
  ghost predicate Encloses(ring: Ring, p: Point) {
    |ring| > 0 && PathParity(ring, p) != Crosses(ring[0], ring[|ring| - 1], p)
  }

  method RingContains(ring: Ring, p: Point) returns (inside: bool)
    ensures inside <==> Encloses(ring, p)
  {
    inside := false;
    var current, previous := 0, |ring| - 1;
    while current < |ring|
      invariant 0 <= current <= |ring|
      invariant previous == if current == 0 then |ring| - 1 else current - 1
      invariant inside == (current > 0 &&
                           PathParity(ring[..current], p) != Crosses(ring[0], ring[|ring| - 1], p))
    {
      assert ring[..current + 1][..current] == ring[..current];
      if Crosses(ring[current], ring[previous], p) {
        inside := !inside;
      }
      previous, current := current, current + 1;
    }
    assert ring[..current] == ring;
  }

  ghost predicate Contains(polygon: Polygon, p: Point)
    requires |polygon| > 0
  {
    Encloses(polygon[0], p) && forall h :: 1 <= h < |polygon| ==> !Encloses(polygon[h], p)
  }

  method PolygonContains(polygon: Polygon, p: Point) returns (inside: bool)
    requires |polygon| > 0
    ensures inside <==> Contains(polygon, p)
  {
    inside := RingContains(polygon[0], p);
    if !inside {
      return;
    }
    for h := 1 to |polygon|
      invariant forall k :: 1 <= k < h ==> !Encloses(polygon[k], p)
    {
      var inHole := RingContains(polygon[h], p);
      if inHole {
        return false;
      }
    }
  }

  // ----- signed area

  function Wedge(a: Point, b: Point): real { a.x * b.y - b.x * a.y }

  ghost function Shoelace(path: seq<Point>): real {
    if |path| < 2 then 0.0
    else Shoelace(path[..|path| - 1]) + Wedge(path[|path| - 2], path[|path| - 1])
  }

  ghost function SignedArea(ring: Ring): real {
    if |ring| == 0 then 0.0 else (Shoelace(ring) + Wedge(ring[|ring| - 1], ring[0])) / 2.0
  }

  /** The sum over the first n edges, the edge out of the last vertex closing the ring. */
  ghost function EdgeSum(ring: Ring, n: nat): real
    requires n <= |ring|
  {
    if n == 0 then 0.0
    else if n < |ring| then Shoelace(ring[..n + 1])
    else Shoelace(ring) + Wedge(ring[n - 1], ring[0])
  }

  lemma EdgeSumStep(ring: Ring, n: nat)
    requires n < |ring|
    ensures EdgeSum(ring, n + 1) == EdgeSum(ring, n) + Wedge(ring[n], ring[(n + 1) % |ring|])
  {
    if n + 1 < |ring| {
      assert (n + 1) % |ring| == n + 1;
      var path := ring[..n + 2];
      assert path[..n + 1] == ring[..n + 1];
      assert Shoelace(path) == Shoelace(path[..n + 1]) + Wedge(path[n], path[n + 1]);
      assert n == 0 ==> Shoelace(ring[..1]) == 0.0;
    } else {
      assert (n + 1) % |ring| == 0;
      assert ring[..n + 1] == ring;
    }
  }

  method RingArea(ring: Ring) returns (area: real)
    ensures area == SignedArea(ring)
  {
    area := 0.0;
    for index := 0 to |ring|
      invariant area == EdgeSum(ring, index)
    {
      EdgeSumStep(ring, index);
      var next := (index + 1) % |ring|;
      area := area + Wedge(ring[index], ring[next]);
    }
    area := area / 2.0;
  }

  ghost function HoleArea(holes: seq<Ring>): real {
    if |holes| == 0 then 0.0
    else HoleArea(holes[..|holes| - 1]) + Abs(SignedArea(holes[|holes| - 1]))
  }

  /** Exterior area less the holes, never negative. */
  ghost function Area(polygon: Polygon): real {
    if |polygon| == 0 then 0.0
    else Max(Abs(SignedArea(polygon[0])) - HoleArea(polygon[1..]), 0.0)
  }

  method PolygonArea(polygon: Polygon) returns (area: real)
    ensures area == Area(polygon)
  {
    if |polygon| == 0 {
      return 0.0;
    }
    var outer := RingArea(polygon[0]);
    area := Abs(outer);
    var holes := polygon[1..];
    for h := 0 to |holes|
      invariant area == Abs(outer) - HoleArea(holes[..h])
    {
      var hole := RingArea(holes[h]);
      assert holes[..h + 1][..h] == holes[..h];
      area := area - Abs(hole);
    }
    assert holes[..|holes|] == holes;
    area := Max(area, 0.0);
  }

  // ----- laws of both

  lemma CrossesSymmetric(a: Point, b: Point, p: Point)
    ensures Crosses(a, b, p) <==> Crosses(b, a, p)
  {
    if Straddles(a, b, p) {
      LineFromEitherEnd(a.x, a.y, b.x, b.y, p.y);
    }
  }

  lemma LineFromEitherEnd(x1: real, y1: real, x2: real, y2: real, y: real)
    requires y1 != y2
    ensures Interpolate(x1, y1, x2, y2, y) == Interpolate(x2, y2, x1, y1, y)
  {
    var w, h := x2 - x1, y2 - y1;
    var f := (y - y1) / h;
    Quotient(y - y1, h);
    QuotientOf(w * f, h, w * (y - y1));
    QuotientOf(w * f - w, y1 - y2, (x1 - x2) * (y - y2));
  }

  lemma QuotientOf(q: real, d: real, n: real)
    requires d != 0.0 && d * q == n
    ensures n / d == q
  {
  }

  lemma {:induction false} ParityJoin(s: seq<Point>, t: seq<Point>, p: Point)
    requires |s| > 0 && |t| > 0
    ensures PathParity(s + t, p)
         == (PathParity(s, p) != (Crosses(t[0], s[|s| - 1], p) != PathParity(t, p)))
  {
    var n := |t| - 1;
    assert (s + t)[..|s + t| - 1] == s + t[..n];
    if n == 0 {
      assert s + t[..n] == s;
    } else {
      ParityJoin(s, t[..n], p);
    }
  }

  lemma {:induction false} ShoelaceJoin(s: seq<Point>, t: seq<Point>)
    requires |s| > 0 && |t| > 0
    ensures Shoelace(s + t) == Shoelace(s) + Wedge(s[|s| - 1], t[0]) + Shoelace(t)
  {
    var n := |t| - 1;
    assert (s + t)[..|s + t| - 1] == s + t[..n];
    if n == 0 {
      assert s + t[..n] == s;
    } else {
      ShoelaceJoin(s, t[..n]);
    }
  }

  /** Cutting a path at one of its vertices: both halves keep that vertex. */
  lemma PathCut(s: seq<Point>, k: nat, p: Point)
    requires k < |s|
    ensures PathParity(s, p) == (PathParity(s[..k + 1], p) != PathParity(s[k..], p))
    ensures Shoelace(s) == Shoelace(s[..k + 1]) + Shoelace(s[k..])
  {
    var front, back := s[..k + 1], s[k + 1..];
    assert s == front + back && s[k..] == [s[k]] + back;
    assert !PathParity([s[k]], p) && Shoelace([s[k]]) == 0.0;
    if |back| > 0 {
      JoinCut(front, back, p);
    } else {
      assert front == s && s[k..] == [s[k]];
    }
  }

  lemma JoinCut(front: seq<Point>, back: seq<Point>, p: Point)
    requires |front| > 0 && |back| > 0
    ensures var s := [front[|front| - 1]] + back;
            && PathParity(front + back, p) == (PathParity(front, p) != PathParity(s, p))
            && Shoelace(front + back) == Shoelace(front) + Shoelace(s)
  {
    var last := [front[|front| - 1]];
    assert !PathParity(last, p) && Shoelace(last) == 0.0;
    ParityJoin(front, back, p);
    ParityJoin(last, back, p);
    ShoelaceJoin(front, back);
    ShoelaceJoin(last, back);
  }

  /** A chord between any two vertices splits a ring: containment is the exclusive or of the
      two parts, signed area is their sum. */
  lemma SplitByChord(ring: Ring, i: nat, j: nat, p: Point)
    requires i < j < |ring|
    ensures var one, two := ring[i..j + 1], ring[j..] + ring[..i + 1];
            && Encloses(ring, p) == (Encloses(one, p) != Encloses(two, p))
            && SignedArea(ring) == SignedArea(one) + SignedArea(two)
  {
    PathCut(ring, j, p);
    PathCut(ring[..j + 1], i, p);
    assert ring[..j + 1][..i + 1] == ring[..i + 1];
    assert ring[..j + 1][i..] == ring[i..j + 1];
    JoinChord(ring[..i + 1], ring[i..j + 1], ring[j..], p);
  }

  /** Three stretches of a ring, consecutive ones sharing a vertex. */
  lemma JoinChord(head: seq<Point>, middle: seq<Point>, tail: seq<Point>, p: Point)
    requires |head| > 0 && |middle| > 0 && |tail| > 0
    requires head[|head| - 1] == middle[0] && middle[|middle| - 1] == tail[0]
    ensures var closing := Crosses(head[0], tail[|tail| - 1], p);
            var whole := PathParity(head, p) != (PathParity(middle, p) != PathParity(tail, p));
            (whole != closing) == (Encloses(middle, p) != Encloses(tail + head, p))
    ensures Shoelace(head) + Shoelace(middle) + Shoelace(tail) + Wedge(tail[|tail| - 1], head[0])
         == 2.0 * (SignedArea(middle) + SignedArea(tail + head))
  {
    ParityJoin(tail, head, p);
    ShoelaceJoin(tail, head);
    CrossesSymmetric(middle[0], middle[|middle| - 1], p);
  }

  /** Containment and signed area do not depend on where the ring starts. */
  lemma Rotate(ring: Ring, k: nat, p: Point)
    requires k <= |ring|
    ensures Encloses(ring[k..] + ring[..k], p) <==> Encloses(ring, p)
    ensures SignedArea(ring[k..] + ring[..k]) == SignedArea(ring)
  {
    var front, back := ring[..k], ring[k..];
    assert ring == front + back;
    if k == 0 || k == |ring| {
      assert back + front == ring;
    } else {
      ParityJoin(front, back, p);
      ParityJoin(back, front, p);
      ShoelaceJoin(front, back);
      ShoelaceJoin(back, front);
    }
  }

  /** Repeating the first vertex at the end, as GeoJSON rings do, changes nothing. */
  lemma RepeatClosingVertex(ring: Ring, p: Point)
    requires |ring| > 0
    ensures Encloses(ring + [ring[0]], p) <==> Encloses(ring, p)
    ensures SignedArea(ring + [ring[0]]) == SignedArea(ring)
  {
    ParityJoin(ring, [ring[0]], p);
    ShoelaceJoin(ring, [ring[0]]);
  }

  ghost function Reverse(path: seq<Point>): seq<Point> {
    if |path| == 0 then [] else [path[|path| - 1]] + Reverse(path[..|path| - 1])
  }

  lemma {:induction false} ReversePath(path: seq<Point>, p: Point)
    ensures |Reverse(path)| == |path|
    ensures |path| > 0 ==> Reverse(path)[0] == path[|path| - 1] && Reverse(path)[|path| - 1] == path[0]
    ensures PathParity(Reverse(path), p) == PathParity(path, p)
    ensures Shoelace(Reverse(path)) == -Shoelace(path)
  {
    if |path| > 0 {
      var n := |path| - 1;
      var rest := path[..n];
      ReversePath(rest, p);
      if n > 0 {
        ParityJoin([path[n]], Reverse(rest), p);
        ShoelaceJoin([path[n]], Reverse(rest));
        CrossesSymmetric(path[n], path[n - 1], p);
      }
    }
  }

  /** Reversing a ring keeps what it encloses and negates its signed area. */
  lemma ReverseRing(ring: Ring, p: Point)
    ensures Encloses(Reverse(ring), p) <==> Encloses(ring, p)
    ensures SignedArea(Reverse(ring)) == -SignedArea(ring)
  {
    ReversePath(ring, p);
    if |ring| > 0 {
      CrossesSymmetric(ring[0], ring[|ring| - 1], p);
    }
  }

  // ----- bounding boxes

  datatype Box = Box(minX: real, minY: real, maxX: real, maxY: real)

  function Grow(box: Option<Box>, q: Point): Box {
    match box
    case None => Box(q.x, q.y, q.x, q.y)
    case Some(b) => Box(Min(b.minX, q.x), Min(b.minY, q.y), Max(b.maxX, q.x), Max(b.maxY, q.y))
  }

  ghost predicate InBox(q: Point, b: Box) {
    b.minX <= q.x <= b.maxX && b.minY <= q.y <= b.maxY
  }

  /** b is the tightest box around the points: it holds them all and each side touches one. */
  ghost predicate IsBoxOf(points: set<Point>, b: Box) {
    && (forall q :: q in points ==> InBox(q, b))
    && (exists q :: q in points && q.x == b.minX)
    && (exists q :: q in points && q.y == b.minY)
    && (exists q :: q in points && q.x == b.maxX)
    && (exists q :: q in points && q.y == b.maxY)
  }

  lemma BoxUnique(points: set<Point>, b: Box, c: Box)
    requires IsBoxOf(points, b) && IsBoxOf(points, c)
    ensures b == c
  {
  }

  /** The running box of a scan that has seen the given points. */
  ghost predicate Tracks(box: Option<Box>, points: set<Point>) {
    match box
    case None => points == {}
    case Some(b) => IsBoxOf(points, b)
  }

  lemma GrowBox(points: set<Point>, box: Option<Box>, q: Point)
    requires Tracks(box, points)
    ensures IsBoxOf(points + {q}, Grow(box, q))
  {
    var all := points + {q};
    assert q in all;
    match box
    case None =>
    case Some(b) =>
      var g := Grow(box, q);
      assert forall r :: r in points ==> r in all;
      forall r | r in all ensures InBox(r, g) { }
      assert exists r :: r in all && r.x == g.minX;
      assert exists r :: r in all && r.y == g.minY;
  }

  ghost function Vertices(polygon: Polygon): set<Point> {
    set r, k | 0 <= r < |polygon| && 0 <= k < |polygon[r]| :: polygon[r][k]
  }

  /** A box exists for every non-empty finite set of points. */
  ghost function BoxOf(points: set<Point>): (b: Box)
    requires points != {}
    ensures IsBoxOf(points, b)
  {
    var q :| q in points;
    var rest := points - {q};
    assert points == rest + {q};
    var box := if rest == {} then None else Some(BoxOf(rest));
    GrowBox(rest, box, q);
    Grow(box, q)
  }

  ghost function Bounds(polygon: Polygon): Box
    requires Vertices(polygon) != {}
  {
    BoxOf(Vertices(polygon))
  }

  method PolygonBounds(polygon: Polygon) returns (b: Box)
    requires Vertices(polygon) != {}
    ensures b == Bounds(polygon)
  {
    var box: Option<Box> := None;
    for r := 0 to |polygon|
      invariant Tracks(box, Vertices(polygon[..r]))
    {
      for k := 0 to |polygon[r]|
        invariant Tracks(box, Vertices(polygon[..r]) + Leading(polygon[r], k))
      {
        GrowBox(Vertices(polygon[..r]) + Leading(polygon[r], k), box, polygon[r][k]);
        LeadingStep(Vertices(polygon[..r]), polygon[r], k);
        box := Some(Grow(box, polygon[r][k]));
      }
      VerticesStep(polygon, r);
    }
    assert polygon[..|polygon|] == polygon;
    b := box.value;
    BoxUnique(Vertices(polygon), b, Bounds(polygon));
  }

  /** The first n vertices of a ring, as a set. */
  ghost function Leading(ring: Ring, n: nat): set<Point>
    requires n <= |ring|
  {
    set j | 0 <= j < n :: ring[j]
  }

  lemma LeadingStep(s: set<Point>, ring: Ring, n: nat)
    requires n < |ring|
    ensures s + Leading(ring, n + 1) == s + Leading(ring, n) + {ring[n]}
  {
  }

  lemma VerticesStep(polygon: Polygon, r: nat)
    requires r < |polygon|
    ensures Vertices(polygon[..r + 1]) == Vertices(polygon[..r]) + Leading(polygon[r], |polygon[r]|)
  {
    var big, small := polygon[..r + 1], polygon[..r];
    forall q | q in Vertices(big)
      ensures q in Vertices(small) + Leading(polygon[r], |polygon[r]|)
    {
      var s, k :| 0 <= s < |big| && 0 <= k < |big[s]| && big[s][k] == q;
      if s < r { assert small[s][k] == q; }
    }
    forall q | q in Vertices(small) ensures q in Vertices(big) {
      var s, k :| 0 <= s < |small| && 0 <= k < |small[s]| && small[s][k] == q;
      assert big[s][k] == q;
    }
    forall j | 0 <= j < |polygon[r]| ensures polygon[r][j] in Vertices(big) {
      assert big[r][j] == polygon[r][j];
    }
  }

  // ----- containment stays within the box

  lemma CrossingBetween(a: Point, b: Point, p: Point)
    requires Straddles(a, b, p)
    ensures Min(a.x, b.x) <= CrossingX(a, b, p.y) <= Max(a.x, b.x)
  {
    InterpolateBetween(a.x, a.y, b.x, b.y, p.y);
  }

  lemma InterpolateBetween(x1: real, y1: real, x2: real, y2: real, y: real)
    requires y1 <= y < y2 || y2 <= y < y1
    ensures Min(x1, x2) <= Interpolate(x1, y1, x2, y2, y) <= Max(x1, x2)
  {
    UnitQuotient(y - y1, y2 - y1);
    PartWay(x2 - x1, y2 - y1, y - y1);
  }

  lemma PartWay(w: real, h: real, d: real)
    requires h != 0.0 && 0.0 <= d / h <= 1.0
    ensures Min(0.0, w) <= Part(w, h, d) <= Max(0.0, w)
  {
    var f := d / h;
    Quotient(d, h);
    var part := Fraction(w, f);
    Regroup(w, f, h, d);
    QuotientOf(part, h, w * d);
  }

  lemma Fraction(w: real, f: real) returns (part: real)
    requires 0.0 <= f <= 1.0
    ensures part == w * f && Min(0.0, w) <= part <= Max(0.0, w)
  {
    part := w * f;
    if w >= 0.0 {
      var first := Product(w, f);
      var rest := Product(w, 1.0 - f);
      assert first + rest == w;
    } else {
      var first := Product(-w, f);
      var rest := Product(-w, 1.0 - f);
      assert first + rest == -w;
    }
  }

  lemma Regroup(w: real, f: real, h: real, d: real)
    requires h * f == d
    ensures h * (w * f) == w * d
  {
    assert h * (w * f) == w * (h * f);
  }

  ghost predicate AllInBox(path: seq<Point>, b: Box) {
    forall k :: 0 <= k < |path| ==> InBox(path[k], b)
  }

  /** Left of every vertex an edge is crossed exactly when it straddles, and a path straddles an
      odd number of times exactly when its ends lie on opposite sides. */
  lemma {:induction false} ParityFromLeft(path: seq<Point>, b: Box, p: Point)
    requires |path| > 0 && AllInBox(path, b) && p.x < b.minX
    ensures PathParity(path, p) == Straddles(path[0], path[|path| - 1], p)
  {
    if |path| > 1 {
      var n := |path| - 1;
      ParityFromLeft(path[..n], b, p);
      CrossesFromLeft(path[n], path[n - 1], b, p);
    }
  }

  lemma CrossesFromLeft(u: Point, v: Point, b: Box, p: Point)
    requires InBox(u, b) && InBox(v, b) && p.x < b.minX
    ensures Crosses(u, v, p) == Straddles(u, v, p)
  {
    if Straddles(u, v, p) {
      CrossingBetween(u, v, p);
    }
  }

  ghost predicate RightAboveOrBelow(p: Point, b: Box) {
    p.x >= b.maxX || p.y >= b.maxY || p.y < b.minY
  }

  lemma NoCrossing(u: Point, v: Point, b: Box, p: Point)
    requires InBox(u, b) && InBox(v, b) && RightAboveOrBelow(p, b)
    ensures !Crosses(u, v, p)
  {
    if Straddles(u, v, p) {
      CrossingBetween(u, v, p);
    }
  }

  lemma {:induction false} NoParity(path: seq<Point>, b: Box, p: Point)
    requires AllInBox(path, b) && RightAboveOrBelow(p, b)
    ensures !PathParity(path, p)
  {
    if |path| > 1 {
      var n := |path| - 1;
      NoParity(path[..n], b, p);
      NoCrossing(path[n], path[n - 1], b, p);
    }
  }

  lemma EnclosedInBox(ring: Ring, b: Box, p: Point)
    requires AllInBox(ring, b) && Encloses(ring, p)
    ensures b.minX <= p.x < b.maxX && b.minY <= p.y < b.maxY
  {
    var n := |ring| - 1;
    if RightAboveOrBelow(p, b) {
      NoParity(ring, b, p);
      NoCrossing(ring[0], ring[n], b, p);
    }
    if p.x < b.minX {
      ParityFromLeft(ring, b, p);
      CrossesFromLeft(ring[0], ring[n], b, p);
    }
  }

  /** Every point a polygon contains lies in its half-open bounding box. */
  lemma ContainsInBounds(polygon: Polygon, p: Point)
    requires |polygon| > 0 && Contains(polygon, p)
    ensures Vertices(polygon) != {}
    ensures var b := Bounds(polygon); b.minX <= p.x < b.maxX && b.minY <= p.y < b.maxY
  {
    assert polygon[0][0] in Vertices(polygon);
    forall k | 0 <= k < |polygon[0]| ensures InBox(polygon[0][k], Bounds(polygon)) {
      assert polygon[0][k] in Vertices(polygon);
    }
    EnclosedInBox(polygon[0], Bounds(polygon), p);
  }
}
