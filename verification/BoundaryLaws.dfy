/** What an analysis sees of a boundary: exactly when two boundaries give the same figures. */
module BoundaryLaws {
  import opened Euclid
  import opened Options
  import opened Rings
  import opened Coverage
  import opened CoverageLaws

  /** Some analysis of the boundary at this resolution succeeds. */
  ghost predicate Analysable(b: Polygon, res: real) {
    && |b| > 0 && Vertices(b) != {} && res > 0.0
    && Bounds(b).minX < Bounds(b).maxX && Bounds(b).minY < Bounds(b).maxY
    && Columns(Bounds(b), res) * Rows(Bounds(b), res) <= 60000
    && Inside(b, res) != {}
  }

  function Middle(b: Box): Point {
    Point((b.minX + b.maxX) / 2.0, (b.minY + b.maxY) / 2.0)
  }

  ghost function Image(b: Box, res: real, cells: set<Cell>): set<Point> {
    set c | c in cells :: Centre(b, res, c)
  }

  /** The centres of the inside cells. */
  ghost function Centres(b: Polygon, res: real): set<Point>
    requires Analysable(b, res)
  {
    Image(Bounds(b), res, Inside(b, res))
  }

  /** All that an analysis sees: the area, the middle of the box, and the centres it samples. */
  ghost predicate SameGrid(b: Polygon, d: Polygon, res: real)
    requires Analysable(b, res) && Analysable(d, res)
  {
    Area(b) == Area(d) && Middle(Bounds(b)) == Middle(Bounds(d)) && Centres(b, res) == Centres(d, res)
  }

  lemma Succeeds(b: Polygon, tracks: seq<Track>, res: real)
    requires |b| > 0 && Vertices(b) != {} && tracks != []
    ensures Assess(b, tracks, res).Ok? <==> Analysable(b, res)
    ensures Assess(b, tracks, res).Ok? ==> Assess(b, tracks, res).value == Summarise(b, tracks, res)
  {
    hide Area, Inside, GapBox, Bounds, Vertices, Summarise;
  }

  lemma Known(b: Polygon, res: real)
    requires Analysable(b, res)
    ensures |b| > 0 && Vertices(b) != {} && res > 0.0 && Inside(b, res) != {}
  {
    hide Inside;
  }

  lemma AreaReported(b: Polygon, tracks: seq<Track>, res: real)
    requires Analysable(b, res) && tracks != []
    ensures Assess(b, tracks, res).Ok? && Assess(b, tracks, res).value.area == Area(b)
  {
    Succeeds(b, tracks, res);
    hide Area, Inside, PassedAtLeast, GapBox, Bounds, Vertices, Assess;
  }

  // ----- cells and their centres

  lemma CentreInjective(b: Box, res: real, c: Cell, d: Cell)
    requires res > 0.0 && Centre(b, res, c) == Centre(b, res, d)
    ensures c == d
  {
    Injective(c.0 as real + 0.5, d.0 as real + 0.5, res);
    Injective(c.1 as real + 0.5, d.1 as real + 0.5, res);
  }

  lemma Injective(x: real, y: real, res: real)
    requires res > 0.0 && x * res == y * res
    ensures x == y
  {
    if x < y {
      var _ := Product(y - x, res);
    } else if y < x {
      var _ := Product(x - y, res);
    }
  }

  lemma {:induction false} ImageSize(b: Box, res: real, cells: set<Cell>)
    requires res > 0.0
    ensures |Image(b, res, cells)| == |cells|
  {
    hide Centre;
    if c :| c in cells {
      var rest := cells - {c};
      ImageSize(b, res, rest);
      forall d | d in rest ensures Centre(b, res, d) != Centre(b, res, c) {
        if Centre(b, res, d) == Centre(b, res, c) {
          CentreInjective(b, res, d, c);
        }
      }
      assert cells == rest + {c};
      assert Image(b, res, cells) == Image(b, res, rest) + {Centre(b, res, c)};
    } else {
      assert Image(b, res, cells) == {};
    }
  }

  /** The sampled points that at least n tracks pass. */
  ghost function PassedPoints(points: set<Point>, tracks: seq<Track>, n: nat): set<Point> {
    set p | p in points && Passes(p, tracks) >= n
  }

  lemma PassedImage(b: Polygon, tracks: seq<Track>, res: real, n: nat)
    requires Analysable(b, res)
    ensures Image(Bounds(b), res, PassedAtLeast(b, tracks, res, n)) == PassedPoints(Centres(b, res), tracks, n)
    ensures |PassedAtLeast(b, tracks, res, n)| == |PassedPoints(Centres(b, res), tracks, n)|
  {
    ImageSize(Bounds(b), res, PassedAtLeast(b, tracks, res, n));
    hide Analysable, Inside, Passes, Centre, Bounds;
    var cells, points := PassedAtLeast(b, tracks, res, n), PassedPoints(Centres(b, res), tracks, n);
    forall p | p in points ensures p in Image(Bounds(b), res, cells) {
      var c :| c in Inside(b, res) && p == Centre(Bounds(b), res, c);
      assert c in cells;
    }
  }

  /** The corners of cells, from their centres alone. */
  ghost function PointCorners(points: set<Point>, res: real): set<Point> {
    (set p | p in points :: Lower(p, res)) + (set p | p in points :: Upper(p, res))
  }

  lemma CornersImage(b: Box, res: real, cells: set<Cell>)
    ensures Corners(b, res, cells) == PointCorners(Image(b, res, cells), res)
  {
    hide Centre, Lower, Upper;
    var points := Image(b, res, cells);
    forall c | c in cells ensures Lower(Centre(b, res, c), res) in PointCorners(points, res)
                               && Upper(Centre(b, res, c), res) in PointCorners(points, res) {
      assert Centre(b, res, c) in points;
    }
    forall p | p in points ensures Lower(p, res) in Corners(b, res, cells) && Upper(p, res) in Corners(b, res, cells) {
      var c :| c in cells && p == Centre(b, res, c);
    }
  }

  lemma GapImage(b: Polygon, tracks: seq<Track>, res: real)
    requires Analysable(b, res)
    ensures Image(Bounds(b), res, Gaps(b, tracks, res)) == Centres(b, res) - PassedPoints(Centres(b, res), tracks, 1)
  {
    Known(b, res);
    hide Analysable, Inside, Passes, Centre, Bounds;
    var cells, points := Gaps(b, tracks, res), Centres(b, res) - PassedPoints(Centres(b, res), tracks, 1);
    forall p | p in points ensures p in Image(Bounds(b), res, cells) {
      var c :| c in Inside(b, res) && p == Centre(Bounds(b), res, c);
      assert c in cells;
    }
    forall c | c in cells ensures Centre(Bounds(b), res, c) in points {
    }
  }

  lemma SameGapBox(b: Polygon, d: Polygon, tracks: seq<Track>, res: real)
    requires Analysable(b, res) && Analysable(d, res) && Centres(b, res) == Centres(d, res)
    ensures GapBox(b, tracks, res) == GapBox(d, tracks, res)
  {
    GapImage(b, tracks, res);
    GapImage(d, tracks, res);
    hide Analysable, Centres, PassedPoints, Gaps, Bounds, Image, Corners, PointCorners;
    CornersImage(Bounds(b), res, Gaps(b, tracks, res));
    CornersImage(Bounds(d), res, Gaps(d, tracks, res));
    CornersEmpty(Bounds(b), res, Gaps(b, tracks, res));
    CornersEmpty(Bounds(d), res, Gaps(d, tracks, res));
  }

  /** Boundaries with the same grid are analysed alike, whatever the tracks. */
  lemma SameGridSuffices(b: Polygon, d: Polygon, tracks: seq<Track>, res: real)
    requires Analysable(b, res) && Analysable(d, res) && SameGrid(b, d, res) && tracks != []
    ensures Assess(b, tracks, res) == Assess(d, tracks, res)
  {
    hide Analysable, Assess, Inside, GapBox, Bounds, Area, PassedAtLeast, Vertices, PassedPoints, Centres, Middle, Report;
    Known(b, res);
    Known(d, res);
    Succeeds(b, tracks, res);
    Succeeds(d, tracks, res);
    SampledCells(b, res);
    SampledCells(d, res);
    SameGapBox(b, d, tracks, res);
    PassedImage(b, tracks, res, 1);
    PassedImage(d, tracks, res, 1);
    PassedImage(b, tracks, res, 2);
    PassedImage(d, tracks, res, 2);
    SameReport(Area(b), Bounds(b), Bounds(d), GapBox(b, tracks, res), res, |Inside(b, res)|,
               |PassedAtLeast(b, tracks, res, 1)|, |PassedAtLeast(b, tracks, res, 2)|);
  }

  lemma SampledCells(b: Polygon, res: real)
    requires Analysable(b, res)
    ensures |Inside(b, res)| == |Centres(b, res)|
  {
    Known(b, res);
    ImageSize(Bounds(b), res, Inside(b, res));
    hide Analysable, Inside, Bounds, Image;
  }

  /** A report sees of the box only its middle. */
  lemma SameReport(area: real, b: Box, d: Box, gapBox: Option<Box>, res: real, inside: nat, covered: nat, overlap: nat)
    requires inside > 0 && Middle(b) == Middle(d)
    ensures Report(area, b, gapBox, res, inside, covered, overlap) == Report(area, d, gapBox, res, inside, covered, overlap)
  {
  }

  // ----- tracks that tell boundaries apart

  /** A run that stays at each of the points, with no swath at all. */
  ghost function Stops(points: seq<Point>): Track {
    Track(seq(|points|, k requires 0 <= k < |points| => [points[k], points[k]]), 0.0)
  }

  lemma OnlyItself(p: Point, q: Point)
    ensures NearSegment(p, q, q, 0.0) <==> p == q
  {
    var u := Square(p.x - q.x);
    var v := Square(p.y - q.y);
    assert Project(p, q, q) == q;
    assert Dist2(p, q) == u + v;
  }

  lemma StopsCover(points: seq<Point>, p: Point)
    ensures Covers(Stops(points), p) <==> p in points
    ensures Passes(p, [Stops(points)]) == if p in points then 1 else 0
  {
    hide NearSegment;
    var track := Stops(points);
    forall k | 0 <= k < |points| ensures LineNear(p, track.lines[k], 0.0) <==> p == points[k] {
      OnlyItself(p, points[k]);
      assert NearSegment(p, track.lines[k][1 - 1], track.lines[k][1], 0.0) <==> LineNear(p, track.lines[k], 0.0);
    }
    hide LineNear;
    assert [track][..0] == [];
  }

  lemma {:induction false} Listed(points: set<Point>) returns (list: seq<Point>)
    ensures forall p :: p in list <==> p in points
  {
    if p :| p in points {
      var rest := Listed(points - {p});
      list := rest + [p];
    } else {
      list := [];
    }
  }

  /** The share of sampled points a run through the given points covers. */
  lemma StopsRatio(b: Polygon, points: seq<Point>, res: real)
    requires Analysable(b, res)
    ensures var r := Assess(b, [Stops(points)], res);
            && r.Ok?
            && (r.value.coverageRatio > 0.0 <==> exists p :: p in points && p in Centres(b, res))
            && (r.value.gapRatio <= 0.0 <==> forall p :: p in Centres(b, res) ==> p in points)
            && (r.value.gapRatio <= 0.0 ==> r.value.gap == [Middle(Bounds(b)), Middle(Bounds(b)), Middle(Bounds(b)), Middle(Bounds(b))])
  {
    hide Analysable, Assess, Bounds, Vertices, Stops, Passes, Centres, Ratio, Middle;
    var tracks := [Stops(points)];
    ReportedShare(b, tracks, res);
    var all, passed := Centres(b, res), PassedPoints(Centres(b, res), tracks, 1);
    forall p ensures p in passed <==> p in all && p in points {
      StopsCover(points, p);
    }
    hide PassedPoints;
    Shares(all, passed);
  }

  lemma ReportedShare(b: Polygon, tracks: seq<Track>, res: real)
    requires Analysable(b, res) && tracks != []
    ensures var r := Assess(b, tracks, res);
            var all, passed := Centres(b, res), PassedPoints(Centres(b, res), tracks, 1);
            && r.Ok? && |all| > 0 && passed <= all
            && r.value.coverageRatio == Ratio(|passed|, |all|)
            && r.value.gapRatio == 1.0 - Ratio(|passed|, |all|)
            && (r.value.gapRatio <= 0.0 ==> r.value.gap == [Middle(Bounds(b)), Middle(Bounds(b)), Middle(Bounds(b)), Middle(Bounds(b))])
  {
    hide Analysable, Assess, Inside, GapBox, Bounds, Area, PassedAtLeast, Vertices, Passes, Centres, Ratio;
    Known(b, res);
    Succeeds(b, tracks, res);
    PassedImage(b, tracks, res, 1);
    SampledCells(b, res);
  }

  lemma Shares(all: set<Point>, passed: set<Point>)
    requires passed <= all && |all| > 0
    ensures Ratio(|passed|, |all|) > 0.0 <==> passed != {}
    ensures 1.0 - Ratio(|passed|, |all|) <= 0.0 <==> passed == all
  {
    hide Ratio;
    assert all == passed + (all - passed);
    assert |all| == |passed| + |all - passed|;
    RatioOrder(0, |passed|, |all|);
    RatioOrder(|passed|, |all|, |all|);
  }

  lemma StopAtPoint(b: Polygon, d: Polygon, res: real, p: Point)
    requires Analysable(b, res) && Analysable(d, res) && p in Centres(b, res)
    requires Assess(b, [Stops([p])], res) == Assess(d, [Stops([p])], res)
    ensures p in Centres(d, res)
  {
    hide Analysable, Assess, Centres, Stops;
    StopsRatio(b, [p], res);
    StopsRatio(d, [p], res);
    assert p in [p];
  }

  ghost predicate SameFigures(b: Polygon, d: Polygon, res: real)
    requires |b| > 0 && Vertices(b) != {} && |d| > 0 && Vertices(d) != {}
  {
    forall tracks :: tracks != [] ==> Assess(b, tracks, res) == Assess(d, tracks, res)
  }

  lemma SameFiguresNeedSameGrid(b: Polygon, d: Polygon, res: real)
    requires Analysable(b, res) && |d| > 0 && Vertices(d) != {} && SameFigures(b, d, res)
    ensures Analysable(d, res) && SameGrid(b, d, res)
  {
    hide Analysable, Assess, Centres, Stops, Area, Bounds, Vertices, Middle;
    Known(b, res);
    var none := [Stops([])];
    Succeeds(b, none, res);
    Succeeds(d, none, res);
    assert Assess(b, none, res) == Assess(d, none, res);
    AreaReported(b, none, res);
    AreaReported(d, none, res);
    SameCentres(b, d, res);
    SameMiddle(b, d, res);
  }

  lemma SameCentres(b: Polygon, d: Polygon, res: real)
    requires Analysable(b, res) && Analysable(d, res) && SameFigures(b, d, res)
    ensures Centres(b, res) == Centres(d, res)
  {
    hide Analysable, Assess, Centres, Stops, Vertices;
    Known(b, res);
    Known(d, res);
    forall p | p in Centres(b, res) ensures p in Centres(d, res) {
      assert Assess(b, [Stops([p])], res) == Assess(d, [Stops([p])], res);
      StopAtPoint(b, d, res, p);
    }
    forall p | p in Centres(d, res) ensures p in Centres(b, res) {
      assert Assess(b, [Stops([p])], res) == Assess(d, [Stops([p])], res);
      StopAtPoint(d, b, res, p);
    }
  }

  lemma SameMiddle(b: Polygon, d: Polygon, res: real)
    requires Analysable(b, res) && Analysable(d, res) && SameFigures(b, d, res) && Centres(b, res) == Centres(d, res)
    ensures Middle(Bounds(b)) == Middle(Bounds(d))
  {
    hide Analysable, Assess, Centres, Stops, Vertices, Bounds, Middle;
    Known(b, res);
    Known(d, res);
    var all := Listed(Centres(b, res));
    assert Assess(b, [Stops(all)], res) == Assess(d, [Stops(all)], res);
    StopsRatio(b, all, res);
    StopsRatio(d, all, res);
  }

  /** A boundary that can be analysed gives the same figures as another for every set of tracks if
      and only if the other can be analysed too and has the same area, the same middle and the same
      sampled centres. */
  lemma SameFiguresIff(b: Polygon, d: Polygon, res: real)
    requires Analysable(b, res) && |d| > 0 && Vertices(d) != {}
    ensures SameFigures(b, d, res) <==> Analysable(d, res) && SameGrid(b, d, res)
  {
    hide Analysable, Assess, SameGrid, Vertices;
    assert |b| > 0 && Vertices(b) != {} by { Known(b, res); }
    if SameFigures(b, d, res) {
      SameFiguresNeedSameGrid(b, d, res);
    }
    if Analysable(d, res) && SameGrid(b, d, res) {
      forall tracks: seq<Track> | tracks != [] ensures Assess(b, tracks, res) == Assess(d, tracks, res) {
        SameGridSuffices(b, d, tracks, res);
      }
    }
  }
}
