/** Laws of the swath raster: batches as connected components, overlap flags, and a bound on
    the work of the raster. */
module OverlapLaws {
  import opened Euclid
  import opened Overlap

  // ----- batches are connected components

  function Gap(a: int, b: int): int { if a <= b then b - a else a - b }

  /** A chain of visits, each within a window of the next. */
  ghost predicate Chain(visits: seq<nat>, window: int, path: seq<nat>) {
    && |path| > 0
    && (forall k :: 0 <= k < |path| ==> path[k] < |visits|)
    && (forall k :: 0 < k < |path| ==> Gap(visits[path[k - 1]], visits[path[k]]) <= window)
  }

  ghost predicate Connected(visits: seq<nat>, window: int, i: nat, j: nat) {
    exists path :: Chain(visits, window, path) && path[0] == i && path[|path| - 1] == j
  }

  /** The batch of visit i, counting from one. */
  ghost function BatchOf(visits: seq<nat>, window: int, i: nat): nat
    requires i < |visits|
  {
    Batches(visits[..i + 1], window)
  }

  lemma BatchStep(visits: seq<nat>, window: int, i: nat)
    requires 0 < i < |visits|
    ensures BatchOf(visits, window, i)
         == BatchOf(visits, window, i - 1) + if visits[i] - visits[i - 1] > window then 1 else 0
  {
    assert visits[..i + 1][..i] == visits[..i];
  }

  lemma {:induction false} BatchOrder(visits: seq<nat>, window: int, i: nat, j: nat)
    requires i <= j < |visits|
    ensures 1 <= BatchOf(visits, window, i) <= BatchOf(visits, window, j)
  {
    if i < j {
      BatchStep(visits, window, j);
      BatchOrder(visits, window, i, j - 1);
    } else if j > 0 {
      BatchStep(visits, window, j);
      BatchOrder(visits, window, j - 1, j - 1);
    }
  }

  /** Two visits no further apart than a window are in one batch. */
  lemma {:induction false} SameBatch(visits: seq<nat>, window: int, i: nat, j: nat)
    requires Increasing(visits) && i <= j < |visits| && visits[j] - visits[i] <= window
    ensures BatchOf(visits, window, i) == BatchOf(visits, window, j)
  {
    if i < j {
      BatchStep(visits, window, j);
      SameBatch(visits, window, i, j - 1);
    }
  }

  lemma {:induction false} ChainInBatch(visits: seq<nat>, window: int, path: seq<nat>)
    requires Increasing(visits) && Chain(visits, window, path)
    ensures BatchOf(visits, window, path[0]) == BatchOf(visits, window, path[|path| - 1])
  {
    var n := |path| - 1;
    if n > 0 {
      ChainInBatch(visits, window, path[..n]);
      if path[n - 1] <= path[n] {
        SameBatch(visits, window, path[n - 1], path[n]);
      } else {
        SameBatch(visits, window, path[n], path[n - 1]);
      }
    }
  }

  lemma {:induction false} BatchChain(visits: seq<nat>, window: int, i: nat, j: nat) returns (path: seq<nat>)
    requires Increasing(visits) && window >= 0 && i <= j < |visits|
    requires BatchOf(visits, window, i) == BatchOf(visits, window, j)
    ensures Chain(visits, window, path) && path[0] == i && path[|path| - 1] == j
  {
    if i == j {
      path := [i];
    } else {
      BatchStep(visits, window, j);
      BatchOrder(visits, window, i, j - 1);
      path := BatchChain(visits, window, i, j - 1);
      path := path + [j];
    }
  }

  lemma Backwards(visits: seq<nat>, window: int, path: seq<nat>) returns (back: seq<nat>)
    requires Chain(visits, window, path)
    ensures Chain(visits, window, back) && back[0] == path[|path| - 1] && back[|back| - 1] == path[0]
  {
    back := seq(|path|, k requires 0 <= k < |path| => path[|path| - 1 - k]);
    forall k | 0 < k < |back| ensures Gap(visits[back[k - 1]], visits[back[k]]) <= window {
      var m := |path| - k;
      assert Gap(visits[path[m - 1]], visits[path[m]]) <= window;
    }
  }

  /** Two visits are connected by steps of at most a window exactly when they share a batch. */
  lemma ConnectedIffSameBatch(visits: seq<nat>, window: int, i: nat, j: nat)
    requires Increasing(visits) && window >= 0 && i < |visits| && j < |visits|
    ensures Connected(visits, window, i, j) <==> BatchOf(visits, window, i) == BatchOf(visits, window, j)
  {
    if Connected(visits, window, i, j) {
      var path :| Chain(visits, window, path) && path[0] == i && path[|path| - 1] == j;
      ChainInBatch(visits, window, path);
    }
    if BatchOf(visits, window, i) == BatchOf(visits, window, j) {
      if i <= j {
        var path := BatchChain(visits, window, i, j);
      } else {
        var path := BatchChain(visits, window, j, i);
        var back := Backwards(visits, window, path);
      }
    }
  }

  /** The batches are numbered from one to their count without a hole: their count is the number
      of connected components. */
  lemma {:induction false} BatchesNumbered(visits: seq<nat>, window: int, b: nat)
    requires |visits| > 0
    ensures 1 <= b <= Batches(visits, window) <==> exists i :: 0 <= i < |visits| && BatchOf(visits, window, i) == b
  {
    var n := |visits| - 1;
    assert visits[..n + 1] == visits;
    assert BatchOf(visits, window, n) == Batches(visits, window);
    forall i | 0 <= i < |visits| ensures 1 <= BatchOf(visits, window, i) <= Batches(visits, window) {
      BatchOrder(visits, window, i, n);
    }
    assert BatchOf(visits, window, 0) == 1;
    if 1 <= b <= Batches(visits, window) {
      var i := n;
      while BatchOf(visits, window, i) != b
        invariant 0 <= i <= n && b <= BatchOf(visits, window, i)
        decreases i
      {
        BatchStep(visits, window, i);
        i := i - 1;
      }
    }
  }

  // ----- the window

  /** A wider window never splits more. */
  lemma {:induction false} WiderWindowFewerBatches(visits: seq<nat>, window: int, wider: int)
    requires window <= wider
    ensures Batches(visits, wider) <= Batches(visits, window)
  {
    if |visits| > 1 {
      WiderWindowFewerBatches(visits[..|visits| - 1], window, wider);
    }
  }

  /** Overlap cells and overlap flags both shrink as the window grows. */
  lemma WiderWindowFewerOverlaps(points: seq<Point>, radius: real, res: real, window: int, wider: int)
    requires res > 0.0 && window <= wider
    ensures CellsRepeated(points, radius, res, wider) <= CellsRepeated(points, radius, res, window)
    ensures forall i :: 0 <= i < |points| && Flagged(points, i, radius, res, wider)
                    ==> Flagged(points, i, radius, res, window)
  {
    hide Visits, Touched;
    forall c | c in CellsRepeated(points, radius, res, wider)
      ensures c in CellsRepeated(points, radius, res, window)
    {
      WiderWindowFewerBatches(Visits(points, c, radius, res), window, wider);
    }
  }

  // ----- overlap flags

  /** A sample is flagged exactly when some sample more than a window earlier reached its cell. */
  lemma FlagMeaning(points: seq<Point>, i: nat, radius: real, res: real, window: int)
    requires res > 0.0 && i < |points| && window >= 0
    ensures Flagged(points, i, radius, res, window)
       <==> exists e: nat :: e + window < i && Reaches(points[e], CellOf(points[i], res), radius, res)
  {
    hide Visits, Reaches;
    var c := CellOf(points[i], res);
    VisitsMeaning(points, c, radius, res);
    if e: nat :| e + window < i && Reaches(points[e], c, radius, res) {
      assert e in Visits(points, c, radius, res);
    }
  }

  /** It is enough to look at the first visit of the cell. */
  lemma FlagByFirstVisit(points: seq<Point>, i: nat, radius: real, res: real, window: int)
    requires res > 0.0 && i < |points|
    ensures var v := Visits(points, CellOf(points[i], res), radius, res);
            Flagged(points, i, radius, res, window) <==> |v| > 0 && i - v[0] > window
  {
    hide Visits, CellOf;
    var c := CellOf(points[i], res);
    VisitsIncreasing(points, c, radius, res);
    var v := Visits(points, c, radius, res);
    if e :| e in v && i - e > window {
      var k :| 0 <= k < |v| && v[k] == e;
      assert v[0] <= v[k];
    }
    if |v| > 0 && i - v[0] > window {
      assert v[0] in v;
    }
  }

  /** Later samples of the same cell stay flagged. */
  lemma FlagsUpwardClosed(points: seq<Point>, i: nat, j: nat, radius: real, res: real, window: int)
    requires res > 0.0 && i <= j < |points| && CellOf(points[i], res) == CellOf(points[j], res)
    requires Flagged(points, i, radius, res, window)
    ensures Flagged(points, j, radius, res, window)
  {
    hide Visits, CellOf;
    var c := CellOf(points[i], res);
    var e :| e in Visits(points, c, radius, res) && i - e > window;
    assert j - e > window;
  }

  /** A sample that visits its own cell in the second batch or later is always flagged. */
  lemma SecondBatchFlagged(points: seq<Point>, i: nat, k: nat, radius: real, res: real, window: int)
    requires res > 0.0 && i < |points|
    requires var v := Visits(points, CellOf(points[i], res), radius, res);
             k < |v| && v[k] == i && BatchOf(v, window, k) >= 2
    ensures Flagged(points, i, radius, res, window)
  {
    hide Visits, CellOf;
    var c := CellOf(points[i], res);
    var v := Visits(points, c, radius, res);
    VisitsIncreasing(points, c, radius, res);
    assert BatchOf(v, window, 0) == 1;
    if v[k] - v[0] <= window {
      SameBatch(v, window, 0, k);
    }
    FlagByFirstVisit(points, i, radius, res, window);
  }

  ghost predicate Break(visits: seq<nat>, window: int, k: nat) {
    0 < k < |visits| && visits[k] - visits[k - 1] > window
  }

  lemma {:induction false} BatchesBreak(visits: seq<nat>, window: int)
    ensures Batches(visits, window) >= 2 <==> exists k: nat :: Break(visits, window, k)
  {
    if |visits| > 1 {
      var n := |visits| - 1;
      BatchesBreak(visits[..n], window);
      SomeBatch(visits[..n], window);
      if k: nat :| Break(visits[..n], window, k) {
        assert Break(visits, window, k);
      }
      if visits[n] - visits[n - 1] > window {
        assert Break(visits, window, n);
      }
      forall k: nat | Break(visits, window, k) ensures k == n || Break(visits[..n], window, k) {
      }
    }
  }

  lemma {:induction false} SomeBatch(visits: seq<nat>, window: int)
    requires |visits| > 0
    ensures Batches(visits, window) >= 1
  {
    if |visits| > 1 {
      SomeBatch(visits[..|visits| - 1], window);
    }
  }

  /** Two samples more than a window apart reach the cell, and none between them does. */
  ghost predicate Returns(points: seq<Point>, c: Cell, radius: real, res: real, window: int, e: nat, f: nat) {
    && e < f < |points| && f - e > window
    && Reaches(points[e], c, radius, res) && Reaches(points[f], c, radius, res)
    && forall k :: e < k < f ==> !Reaches(points[k], c, radius, res)
  }

  lemma BreakReturns(points: seq<Point>, c: Cell, radius: real, res: real, window: int, k: nat)
    requires Break(Visits(points, c, radius, res), window, k)
    ensures var v := Visits(points, c, radius, res); 0 < k < |v| && Returns(points, c, radius, res, window, v[k - 1], v[k])
  {
    hide Visits, Reaches;
    var v := Visits(points, c, radius, res);
    VisitsMeaning(points, c, radius, res);
    assert v[k - 1] in v && v[k] in v;
    forall m | v[k - 1] < m < v[k] ensures !Reaches(points[m], c, radius, res) {
      assert m !in v;
    }
  }

  lemma ReturnsBreak(points: seq<Point>, c: Cell, radius: real, res: real, window: int, e: nat, f: nat) returns (k: nat)
    requires Returns(points, c, radius, res, window, e, f)
    ensures Break(Visits(points, c, radius, res), window, k)
  {
    hide Visits, Reaches;
    var v := Visits(points, c, radius, res);
    VisitsMeaning(points, c, radius, res);
    assert e in v && f in v;
    var a :| 0 <= a < |v| && v[a] == e;
    var b :| 0 <= b < |v| && v[b] == f;
    k := a + 1;
    assert a < b && v[k] in v;
  }

  /** A cell is an overlap cell exactly when some sample returns to it more than a window after the
      one that reached it before. */
  lemma CellRepeatedIff(points: seq<Point>, c: Cell, radius: real, res: real, window: int)
    requires res > 0.0
    ensures c in CellsRepeated(points, radius, res, window)
       <==> exists e: nat, f: nat :: Returns(points, c, radius, res, window, e, f)
  {
    hide Visits, Touched, Batches, Break, Returns;
    var v := Visits(points, c, radius, res);
    TouchedMeaning(points, c, radius, res);
    BatchesBreak(v, window);
    if c in CellsRepeated(points, radius, res, window) {
      var k: nat :| Break(v, window, k);
      BreakReturns(points, c, radius, res, window, k);
      var e: nat, f: nat := v[k - 1], v[k];
      assert Returns(points, c, radius, res, window, e, f);
    }
    if e: nat, f: nat :| Returns(points, c, radius, res, window, e, f) {
      var k := ReturnsBreak(points, c, radius, res, window, e, f);
      BreakVisits(v, window, k);
    }
  }

  lemma BreakVisits(v: seq<nat>, window: int, k: nat)
    requires Break(v, window, k)
    ensures v != []
  {
  }

  /** A sample that reaches its own cell with no visitor within the window before it is flagged exactly
      when the cell was visited at all before, and then the cell is an overlap cell. */
  lemma FlaggedOnReturn(points: seq<Point>, i: nat, radius: real, res: real, window: int)
    requires res > 0.0 && window >= 0 && i < |points|
    requires Reaches(points[i], CellOf(points[i], res), radius, res)
    requires forall k: nat :: k < i && i - k <= window ==> !Reaches(points[k], CellOf(points[i], res), radius, res)
    ensures Flagged(points, i, radius, res, window)
       <==> exists e: nat :: e < i && Reaches(points[e], CellOf(points[i], res), radius, res)
    ensures Flagged(points, i, radius, res, window) ==>
              CellOf(points[i], res) in CellsRepeated(points, radius, res, window)
  {
    hide Reaches, CellOf, CellsRepeated, Visits;
    var c := CellOf(points[i], res);
    FlagMeaning(points, i, radius, res, window);
    if e: nat :| e < i && Reaches(points[e], c, radius, res) {
      var last := LastVisit(points, c, radius, res, i, e);
      assert Returns(points, c, radius, res, window, last, i);
      CellRepeatedIff(points, c, radius, res, window);
    }
  }

  lemma LastVisit(points: seq<Point>, c: Cell, radius: real, res: real, i: nat, e: nat) returns (last: nat)
    requires e < i <= |points| && Reaches(points[e], c, radius, res)
    ensures e <= last < i && Reaches(points[last], c, radius, res)
    ensures forall k :: last < k < i ==> !Reaches(points[k], c, radius, res)
  {
    hide Reaches;
    last := i - 1;
    while !Reaches(points[last], c, radius, res)
      invariant e <= last < i
      invariant forall k :: last < k < i ==> !Reaches(points[k], c, radius, res)
      decreases last
    {
      last := last - 1;
    }
  }

  /** A flag alone does not mean overlap: five samples in one spot are one batch, yet the last is
      flagged. */
  lemma FlaggedInOneBatch() returns (points: seq<Point>)
    ensures |points| == 5 && Flagged(points, 4, 1.0, 1.0, 3)
    ensures Batches(Visits(points, CellOf(points[4], 1.0), 1.0, 1.0), 3) == 1
    ensures CellOf(points[4], 1.0) !in CellsRepeated(points, 1.0, 1.0, 3)
  {
    hide Visits, Batches, CellOf, Touched, Reaches;
    var p := Point(0.5, 0.5);
    points := [p, p, p, p, p];
    SpotVisits(points);
    var v := Visits(points, CellOf(p, 1.0), 1.0, 1.0);
    assert v[0] in v;
  }

  /** The numbers below n, in order. */
  ghost function Below(n: nat): seq<nat> { seq(n, k => k) }

  lemma {:induction false} AllVisit(points: seq<Point>, c: Cell, radius: real, res: real)
    requires forall k :: 0 <= k < |points| ==> Reaches(points[k], c, radius, res)
    ensures Visits(points, c, radius, res) == Below(|points|)
  {
    hide Reaches;
    if |points| > 0 {
      var n := |points| - 1;
      AllVisit(points[..n], c, radius, res);
      assert Below(|points|) == Below(n) + [n];
    }
  }

  lemma {:induction false} StepsOfOne(n: nat, window: int)
    requires n > 0 && window >= 1
    ensures Batches(Below(n), window) == 1
  {
    if n > 1 {
      StepsOfOne(n - 1, window);
      assert Below(n)[..n - 1] == Below(n - 1);
    }
  }

  lemma SpotVisits(points: seq<Point>)
    requires |points| == 5 && forall k :: 0 <= k < 5 ==> points[k] == Point(0.5, 0.5)
    ensures var v := Visits(points, CellOf(Point(0.5, 0.5), 1.0), 1.0, 1.0);
            |v| == 5 && v[0] == 0 && Batches(v, 3) == 1
  {
    hide Visits, Batches;
    var p, c := Point(0.5, 0.5), (0, 0);
    assert CellOf(p, 1.0) == c && Reaches(p, c, 1.0, 1.0);
    AllVisit(points, c, 1.0, 1.0);
    StepsOfOne(5, 3);
  }

  // ----- how much work a raster can take

  /** Each stamp scans fewer than (2R + 2) squared cells, R being the radius in cells. */
  lemma StampBound(p: Point, radius: real, res: real)
    requires res > 0.0 && radius >= 0.0
    ensures 0 <= StampWork(p, radius, res)
    ensures StampWork(p, radius, res) as real
          < (2.0 * (radius / res) + 2.0) * (2.0 * (radius / res) + 2.0)
  {
    var w := CellIndex(p.x + radius, res) - CellIndex(p.x - radius, res) + 1;
    var h := CellIndex(p.y + radius, res) - CellIndex(p.y - radius, res) + 1;
    AxisWidth(p.x, radius, res);
    AxisWidth(p.y, radius, res);
    ProductBelow(w, h, 2.0 * (radius / res) + 2.0);
  }

  lemma ProductBelow(w: int, h: int, bound: real)
    requires 0 < w && 0 < h && w as real < bound && h as real < bound
    ensures 0 <= w * h && (w * h) as real < bound * bound
  {
    var x, y := w as real, h as real;
    var _ := Product(bound - x, bound);
    var _ := Product(x, bound - y);
    assert (w * h) as real == x * y;
    assert bound * bound - x * y == (bound - x) * bound + x * (bound - y);
  }

  lemma {:induction false} TotalBound(points: seq<Point>, radius: real, res: real, bound: real)
    requires res > 0.0 && radius >= 0.0
    requires bound == (2.0 * (radius / res) + 2.0) * (2.0 * (radius / res) + 2.0)
    ensures 0 <= TotalWork(points, radius, res)
    ensures TotalWork(points, radius, res) as real <= Times(|points| as real, bound)
  {
    hide StampWork;
    if |points| > 0 {
      var n := |points| - 1;
      TotalBound(points[..n], radius, res, bound);
      StampBound(points[n], radius, res);
      OneMore(n, bound);
    }
  }

  lemma OneMore(n: nat, bound: real)
    ensures Times((n + 1) as real, bound) == Times(n as real, bound) + bound
  {
    var x := n as real;
    assert (x + 1.0) * bound == x * bound + bound;
    assert (n + 1) as real == x + 1.0;
    assert Times(x + 1.0, bound) == Times(x, bound) + bound;
  }

  /** Once both guards pass, a raster makes fewer than 3.1 million cell tests. */
  lemma RasterBound(points: seq<Point>, radius: real, res: real)
    requires res > 0.0 && radius >= 0.0 && |points| <= 5000
    requires !TooManyCells(radius, res, |points|)
    ensures TotalWork(points, radius, res) < 3100000
  {
    hide TotalWork, CellsPerSample;
    var ratio, n := radius / res, |points| as real;
    Quotient(radius, res);
    if ratio < 0.0 { var _ := Product(-ratio, res); }
    var bound := (2.0 * ratio + 2.0) * (2.0 * ratio + 2.0);
    TotalBound(points, radius, res, bound);
    WorkArithmetic(n, ratio, CellsPerSample(ratio), bound);
  }

  lemma WorkArithmetic(n: real, ratio: real, cells: real, bound: real)
    requires 0.0 <= n <= 5000.0 && ratio >= 0.0
    requires cells == CellsPerSample(ratio) && Times(cells, n) <= 2000000.0
    requires bound == (2.0 * ratio + 2.0) * (2.0 * ratio + 2.0)
    ensures Times(n, bound) < 3100000.0
  {
    var square := Square(ratio);
    var area := Product(square, n);
    var reach := Product(n, ratio);
    Regroup(ratio, n, cells, area);
    var rest := Product(5000.0 - n, area);
    SquareOfProduct(n, ratio, area);
    BelowRoot(reach, n, area, rest);
    Expand(n, ratio, area, reach, bound);
  }

  lemma BelowRoot(reach: real, n: real, area: real, rest: real)
    requires 0.0 <= area <= 636621.0 && rest == (5000.0 - n) * area && rest >= 0.0
    requires reach * reach == n * area
    ensures reach <= 56420.0
  {
    assert reach * reach <= 5000.0 * 636621.0;
    SquareOrder(reach, 56420.0);
  }

  lemma Regroup(ratio: real, n: real, cells: real, area: real)
    requires cells == CellsPerSample(ratio) && Times(cells, n) <= 2000000.0
    requires area == (ratio * ratio) * n && area >= 0.0
    ensures area <= 636621.0
  {
    assert cells * n == MATH_PI * area;
  }

  lemma SquareOfProduct(n: real, ratio: real, area: real)
    requires area == (ratio * ratio) * n
    ensures (n * ratio) * (n * ratio) == n * area
  {
  }

  lemma Expand(n: real, ratio: real, area: real, reach: real, bound: real)
    requires area == (ratio * ratio) * n && reach == n * ratio
    requires bound == (2.0 * ratio + 2.0) * (2.0 * ratio + 2.0)
    ensures n * bound == 4.0 * area + 8.0 * reach + 4.0 * n
  {
    var square := ratio * ratio;
    assert bound == 4.0 * square + 8.0 * ratio + 4.0;
  }

  // ----- what a cell and the guard mean on the plane

  lemma IndexAround(v: real, c: int, res: real)
    requires res > 0.0
    ensures c == CellIndex(v, res) <==> Times(c as real, res) <= v < Times(c as real, res) + res
  {
    var q := v / res;
    Quotient(v, res);
    var low := Product(res, q - c as real);
    var high := Product(res, c as real + 1.0 - q);
    var under := Product(res, c as real - q);
    var over := Product(res, q - c as real - 1.0);
    assert low == v - c as real * res && high == c as real * res + res - v;
    assert under == -low && over == -high;
    if c as real > q { var _ := Product(res, c as real - q); }
    if c as real + 1.0 == q { assert high == 0.0; }
  }

  /** The cell of a sample is the one whose centre is within half a resolution of it along each axis. */
  lemma CellAround(p: Point, c: Cell, res: real)
    requires res > 0.0
    ensures var m := CellCentre(c, res);
            c == CellOf(p, res) <==>
              && m.x - res / 2.0 <= p.x < m.x + res / 2.0
              && m.y - res / 2.0 <= p.y < m.y + res / 2.0
  {
    IndexAround(p.x, c.0, res);
    IndexAround(p.y, c.1, res);
    Middle(c.0, res);
    Middle(c.1, res);
  }

  lemma Middle(c: int, res: real)
    ensures (c as real + 0.5) * res == Times(c as real, res) + res / 2.0
  {
  }

  /** A sample reaches a cell exactly when the distance from the cell's centre is at most the radius. */
  lemma ReachesIff(hypot: Hypot, p: Point, c: Cell, radius: real, res: real)
    requires IsEuclidean(hypot)
    ensures Reaches(p, c, radius, res) <==> hypot(CellCentre(c, res), p) <= radius
  {
    WithinIsDistance(hypot, CellCentre(c, res), p, radius);
    hide IsEuclidean, Within, CellCentre;
  }

  /** With a radius of at least half a cell diagonal, every sample reaches the cell it lies in. */
  lemma ReachesOwnCell(p: Point, radius: real, res: real)
    requires res > 0.0 && radius >= 0.0 && 2.0 * (radius * radius) >= res * res
    ensures Reaches(p, CellOf(p, res), radius, res)
  {
    var m := CellCentre(CellOf(p, res), res);
    CellAround(p, CellOf(p, res), res);
    HalfSquare(m.x - p.x, res);
    HalfSquare(m.y - p.y, res);
  }

  lemma HalfSquare(d: real, res: real)
    requires -res / 2.0 <= d <= res / 2.0
    ensures d * d <= res * res / 4.0
  {
    var _ := Product(res / 2.0 - d, res / 2.0 + d);
    assert (res / 2.0 - d) * (res / 2.0 + d) == res * res / 4.0 - d * d;
  }

  /** The guard compares areas: it refuses a swath circle of more than 5000 cells, and circles of
      more than two million cells in all. */
  lemma GuardIff(radius: real, res: real, samples: nat)
    requires res > 0.0
    ensures var circle, cell := 3.14159265358979323846 * (radius * radius), res * res;
            TooManyCells(radius, res, samples) <==>
              circle > 5000.0 * cell || samples as real * circle > 2000000.0 * cell
  {
    var ratio, n := radius / res, samples as real;
    var circle, cell := 3.14159265358979323846 * (radius * radius), res * res;
    var cells := CellsPerSample(ratio);
    Quotient(radius, res);
    var square := Product(res, res);
    CircleCells(radius, res, ratio, cells);
    hide CellsPerSample;
    Exceeds(cell, cells, circle, 5000.0);
    AllCells(cell, cells, circle, n);
    Exceeds(cell, Times(cells, n), n * circle, 2000000.0);
  }

  lemma AllCells(cell: real, cells: real, circle: real, n: real)
    requires circle == cell * cells
    ensures n * circle == cell * Times(cells, n)
  {
  }

  lemma Exceeds(cell: real, cells: real, circle: real, limit: real)
    requires cell > 0.0 && circle == cell * cells
    ensures circle > limit * cell <==> cells > limit
  {
    SameSign(cell, cells - limit);
    assert cell * (cells - limit) == circle - limit * cell;
  }

  lemma CircleCells(radius: real, res: real, ratio: real, cells: real)
    requires res * ratio == radius && cells == CellsPerSample(ratio)
    ensures 3.14159265358979323846 * (radius * radius) == (res * res) * cells
  {
    assert radius * radius == (res * res) * (ratio * ratio);
    assert cells == MATH_PI * (ratio * ratio);
  }

  lemma SameSign(a: real, b: real)
    requires a > 0.0
    ensures a * b > 0.0 <==> b > 0.0
  {
    var p := Product(a, b);
    var n := Product(a, -b);
    assert n == -p;
  }
}
