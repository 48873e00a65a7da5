/** What the answers of a coverage analysis mean on the plane: which cells are sampled, what each
    figure counts, when it fails, how severe a gap is, and where the recommended line runs. */
module CoverageMeaning {
  import opened Euclid
  import opened Options
  import opened Rings
  import opened Coverage
  import opened CoverageLaws
  import opened Transects
  import opened States

  // ----- the cells sampled

  lemma CellsAcross(span: real, res: real, n: int)
    requires res > 0.0
    ensures n == Ceil(span / res) <==> Times(n as real - 1.0, res) < span <= Times(n as real, res)
  {
    var q := span / res;
    Quotient(span, res);
    Compare(res, q, n as real);
    Compare(res, q, n as real - 1.0);
  }

  lemma Compare(res: real, q: real, x: real)
    requires res > 0.0
    ensures res * q <= Times(x, res) <==> q <= x
  {
    if q <= x { var d := Product(res, x - q); } else { var d := Product(res, q - x); }
  }

  lemma SampledOnAxis(i: int, span: real, res: real)
    requires res > 0.0 && 0.0 <= (i as real + 0.5) * res < span
    ensures 0 <= i < Ceil(span / res)
  {
    var n := Ceil(span / res);
    CellsAcross(span, res, n);
    if i < 0 { var _ := Product(-(i as real) - 0.5, res); }
    if n <= i { var _ := Product(i as real + 0.5 - n as real, res); }
  }

  lemma CentreOnGrid(b: Box, res: real, c: Cell)
    requires res > 0.0
    requires var p := Centre(b, res, c); b.minX <= p.x < b.maxX && b.minY <= p.y < b.maxY
    ensures 0 <= c.1 < Columns(b, res) && 0 <= c.0 < Rows(b, res)
  {
    SampledOnAxis(c.1, b.maxX - b.minX, res);
    SampledOnAxis(c.0, b.maxY - b.minY, res);
  }

  /** The analysis samples every cell of the plane whose centre the boundary contains, and no other:
      the rows and columns it scans miss none. */
  lemma SampledIff(boundary: Polygon, res: real, c: Cell)
    requires |boundary| > 0 && Vertices(boundary) != {} && res > 0.0
    ensures c in Inside(boundary, res) <==> Contains(boundary, Centre(Bounds(boundary), res, c))
  {
    hide Contains, Bounds, Vertices, Centre, Columns, Rows;
    var b := Bounds(boundary);
    if Contains(boundary, Centre(b, res, c)) {
      ContainsInBounds(boundary, Centre(b, res, c));
      CentreOnGrid(b, res, c);
      assert c == (c.0, c.1);
    }
  }

  /** So many cells of the resolution are just enough to span the boundary. */
  ghost predicate Spans(boundary: Polygon, res: real, columns: int, rows: int)
    requires Vertices(boundary) != {}
  {
    var b := Bounds(boundary);
    && Times(columns as real - 1.0, res) < b.maxX - b.minX <= Times(columns as real, res)
    && Times(rows as real - 1.0, res) < b.maxY - b.minY <= Times(rows as real, res)
  }

  /** When an analysis fails, and how: it is too large exactly when more than 60000 cells span the
      boundary, and otherwise succeeds exactly when the boundary contains the centre of some cell. */
  lemma AssessOutcome(boundary: Polygon, tracks: seq<Track>, res: real, columns: int, rows: int)
    requires |boundary| > 0 && Vertices(boundary) != {}
    requires res > 0.0 ==> Spans(boundary, res, columns, rows)
    ensures var b := Bounds(boundary);
            var answer := Assess(boundary, tracks, res);
            var posed := res > 0.0 && tracks != [] && b.minX < b.maxX && b.minY < b.maxY;
            && (answer == Err(GeometryTooLarge) <==> posed && columns * rows > 60000)
            && (answer.Ok? <==> posed && columns * rows <= 60000 && exists c :: Contains(boundary, Centre(b, res, c)))
            && (answer == Err(InvalidGeometry) <==> !answer.Ok? && answer != Err(GeometryTooLarge))
  {
    hide Contains, Bounds, Vertices, Summarise, Centre, Inside;
    var b := Bounds(boundary);
    if res > 0.0 {
      CellsAcross(b.maxX - b.minX, res, columns);
      CellsAcross(b.maxY - b.minY, res, rows);
      assert columns == Columns(b, res) && rows == Rows(b, res);
      forall c ensures c in Inside(boundary, res) <==> Contains(boundary, Centre(b, res, c)) {
        SampledIff(boundary, res, c);
      }
      if Inside(boundary, res) != {} {
        var c :| c in Inside(boundary, res);
        assert Contains(boundary, Centre(b, res, c));
      }
    }
  }

  // ----- what the figures count

  ghost function CoveringTracks(p: Point, tracks: seq<Track>): set<nat> {
    set t: nat | t < |tracks| && Covers(tracks[t], p)
  }

  lemma {:induction false} PassesCount(p: Point, tracks: seq<Track>)
    ensures Passes(p, tracks) == |CoveringTracks(p, tracks)|
  {
    hide Covers;
    if |tracks| == 0 {
      assert CoveringTracks(p, tracks) == {};
    } else {
      var n := |tracks| - 1;
      PassesCount(p, tracks[..n]);
      var before := CoveringTracks(p, tracks[..n]);
      if Covers(tracks[n], p) {
        assert CoveringTracks(p, tracks) == before + {n};
      } else {
        assert CoveringTracks(p, tracks) == before;
      }
    }
  }

  ghost predicate Seen(p: Point, tracks: seq<Track>) {
    exists t :: 0 <= t < |tracks| && Covers(tracks[t], p)
  }

  ghost predicate SeenTwice(p: Point, tracks: seq<Track>) {
    exists t, u :: 0 <= t < u < |tracks| && Covers(tracks[t], p) && Covers(tracks[u], p)
  }

  lemma SeenIff(p: Point, tracks: seq<Track>)
    ensures Passes(p, tracks) >= 1 <==> Seen(p, tracks)
    ensures Passes(p, tracks) >= 2 <==> SeenTwice(p, tracks)
  {
    hide Covers;
    PassesCount(p, tracks);
    var all := CoveringTracks(p, tracks);
    if Seen(p, tracks) {
      var t :| 0 <= t < |tracks| && Covers(tracks[t], p);
      assert t in all;
    }
    if all != {} {
      var t :| t in all;
      assert all == {t} + (all - {t});
      if all - {t} != {} {
        var u :| u in all - {t};
        assert SeenTwice(p, tracks) by {
          if t < u { assert Covers(tracks[t], p) && Covers(tracks[u], p); } else { assert Covers(tracks[u], p) && Covers(tracks[t], p); }
        }
      }
    }
    if SeenTwice(p, tracks) {
      var t, u :| 0 <= t < u < |tracks| && Covers(tracks[t], p) && Covers(tracks[u], p);
      assert {t, u} <= all;
      Cardinality({t, u}, all);
    }
  }

  lemma Cardinality(small: set<nat>, big: set<nat>)
    requires small <= big
    ensures |small| <= |big|
  {
    assert big == small + (big - small);
  }

  ghost function CellsSeen(boundary: Polygon, tracks: seq<Track>, res: real): set<Cell>
    requires |boundary| > 0 && Vertices(boundary) != {} && res > 0.0
  {
    set c | c in Inside(boundary, res) && Seen(Centre(Bounds(boundary), res, c), tracks)
  }

  ghost function CellsSeenTwice(boundary: Polygon, tracks: seq<Track>, res: real): set<Cell>
    requires |boundary| > 0 && Vertices(boundary) != {} && res > 0.0
  {
    set c | c in Inside(boundary, res) && SeenTwice(Centre(Bounds(boundary), res, c), tracks)
  }

  lemma SeenCells(boundary: Polygon, tracks: seq<Track>, res: real)
    requires |boundary| > 0 && Vertices(boundary) != {} && res > 0.0
    ensures PassedAtLeast(boundary, tracks, res, 1) == CellsSeen(boundary, tracks, res)
    ensures PassedAtLeast(boundary, tracks, res, 2) == CellsSeenTwice(boundary, tracks, res)
    ensures Gaps(boundary, tracks, res) == Inside(boundary, res) - CellsSeen(boundary, tracks, res)
  {
    hide Seen, SeenTwice, Passes, Inside, Bounds, Vertices, Centre;
    forall c | c in Inside(boundary, res)
      ensures Passes(Centre(Bounds(boundary), res, c), tracks) >= 1 <==> Seen(Centre(Bounds(boundary), res, c), tracks)
      ensures Passes(Centre(Bounds(boundary), res, c), tracks) >= 2 <==> SeenTwice(Centre(Bounds(boundary), res, c), tracks)
    {
      SeenIff(Centre(Bounds(boundary), res, c), tracks);
    }
  }

  /** Coverage is the share of sampled cells some track passes, overlap the share two tracks pass,
      and the gap the share none passes. */
  lemma FiguresCount(boundary: Polygon, tracks: seq<Track>, res: real, r: CoverageResult)
    requires |boundary| > 0 && Vertices(boundary) != {} && Assess(boundary, tracks, res) == Ok(r)
    ensures var cells := Inside(boundary, res);
            && r.area == Area(boundary) && r.sampleCells == |cells| && |cells| > 0
            && Times(r.coverageRatio, |cells| as real) == |CellsSeen(boundary, tracks, res)| as real
            && Times(r.overlapRatio, |cells| as real) == |CellsSeenTwice(boundary, tracks, res)| as real
            && Times(r.gapRatio, |cells| as real) == |cells - CellsSeen(boundary, tracks, res)| as real
  {
    hide Inside, Bounds, Vertices, GapBox, Area, PassedAtLeast, GapArtifacts, CellsSeen, CellsSeenTwice, Gaps, Rows, Columns;
    var cells := Inside(boundary, res);
    var seen := CellsSeen(boundary, tracks, res);
    SeenCells(boundary, tracks, res);
    Shares(|cells|, |seen|);
    Shares(|cells|, |CellsSeenTwice(boundary, tracks, res)|);
    SeenAreSampled(boundary, tracks, res);
    assert cells == seen + (cells - seen);
  }

  lemma SeenAreSampled(boundary: Polygon, tracks: seq<Track>, res: real)
    requires |boundary| > 0 && Vertices(boundary) != {} && res > 0.0
    ensures CellsSeen(boundary, tracks, res) <= Inside(boundary, res)
  {
    hide Inside, Seen, Bounds, Vertices;
  }

  lemma Shares(whole: nat, part: nat)
    requires whole > 0
    ensures Times(Ratio(part, whole), whole as real) == part as real
    ensures Times(1.0 - Ratio(part, whole), whole as real) == whole as real - part as real
  {
    Quotient(part as real, whole as real);
  }

  /** A gap is critical from 12 uncovered cells in 100 on, and major from 5 in 100 on. */
  lemma SeverityByCells(boundary: Polygon, tracks: seq<Track>, res: real, r: CoverageResult)
    requires |boundary| > 0 && Vertices(boundary) != {} && Assess(boundary, tracks, res) == Ok(r)
    ensures var cells := Inside(boundary, res);
            var open := |cells - CellsSeen(boundary, tracks, res)|;
            SeverityForRatio(r.gapRatio)
              == if 100 * open >= 12 * |cells| then Critical else if 100 * open >= 5 * |cells| then Major else Minor
  {
    FiguresCount(boundary, tracks, res, r);
    hide Inside, CellsSeen, CellsSeenTwice, Assess, Vertices, Area, SeverityForRatio, Times;
    var cells := Inside(boundary, res);
    SeverityOfShare(r.gapRatio, |cells|, |cells - CellsSeen(boundary, tracks, res)|);
  }

  lemma SeverityOfShare(ratio: real, whole: nat, part: nat)
    requires whole > 0 && Times(ratio, whole as real) == part as real
    ensures SeverityForRatio(ratio)
         == if 100 * part >= 12 * whole then Critical else if 100 * part >= 5 * whole then Major else Minor
  {
    AtLeastShare(ratio, 0.12, whole as real, part as real);
    AtLeastShare(ratio, 0.05, whole as real, part as real);
    hide Times;
  }

  lemma AtLeastShare(ratio: real, bound: real, whole: real, part: real)
    requires whole > 0.0 && Times(ratio, whole) == part
    ensures ratio >= bound <==> part >= bound * whole
  {
    if ratio >= bound { var _ := Product(ratio - bound, whole); } else { var _ := Product(bound - ratio, whole); }
  }

  // ----- the gap and the recommended line

  /** A line through the middle of g, along its longer side, ending r beyond g on both sides. */
  predicate RunsThrough(g: Box, r: real, line: Line) {
    && |line| == 2
    && Along(line[0], line[1], 0.5) == Point((g.minX + g.maxX) / 2.0, (g.minY + g.maxY) / 2.0)
    && (if g.maxX - g.minX >= g.maxY - g.minY
        then line[0].y == line[1].y && line[0].x == g.minX - r && line[1].x == g.maxX + r
        else line[0].x == line[1].x && line[0].y == g.minY - r && line[1].y == g.maxY + r)
  }

  function ShorterSide(g: Box): real { Min(g.maxX - g.minX, g.maxY - g.minY) }

  /** g reaches exactly half a cell beyond the outermost uncovered centres. */
  ghost predicate Hugs(boundary: Polygon, tracks: seq<Track>, res: real, g: Box)
    requires |boundary| > 0 && Vertices(boundary) != {} && res > 0.0
  {
    var b, gaps, r := Bounds(boundary), Gaps(boundary, tracks, res), res / 2.0;
    && (forall c :: c in gaps ==> InBox(Centre(b, res, c), Box(g.minX + r, g.minY + r, g.maxX - r, g.maxY - r)))
    && (exists c :: c in gaps && Centre(b, res, c).x == g.minX + r) && (exists c :: c in gaps && Centre(b, res, c).y == g.minY + r)
    && (exists c :: c in gaps && Centre(b, res, c).x == g.maxX - r) && (exists c :: c in gaps && Centre(b, res, c).y == g.maxY - r)
  }

  lemma BoxHugs(boundary: Polygon, tracks: seq<Track>, res: real, g: Box)
    requires |boundary| > 0 && Vertices(boundary) != {} && res > 0.0
    requires IsBoxOf(Corners(Bounds(boundary), res, Gaps(boundary, tracks, res)), g)
    ensures Hugs(boundary, tracks, res, g)
  {
    hide Gaps, Bounds, Vertices, Centre, Corners;
    var b, gaps := Bounds(boundary), Gaps(boundary, tracks, res);
    var corners := Corners(b, res, gaps);
    forall c | c in gaps
      ensures InBox(Centre(b, res, c), Box(g.minX + res / 2.0, g.minY + res / 2.0, g.maxX - res / 2.0, g.maxY - res / 2.0))
    {
      BothCorners(b, res, gaps, c);
      hide IsBoxOf;
      HalfInside(corners, g, Centre(b, res, c), res);
    }
    var left :| left in corners && left.x == g.minX;
    var low :| low in corners && low.y == g.minY;
    var right :| right in corners && right.x == g.maxX;
    var high :| high in corners && high.y == g.maxY;
    var c := CornerOf(b, res, gaps, left);
    var d := CornerOf(b, res, gaps, low);
    var e := CornerOf(b, res, gaps, right);
    var f := CornerOf(b, res, gaps, high);
  }

  lemma BothCorners(b: Box, res: real, cells: set<Cell>, c: Cell)
    requires c in cells
    ensures Lower(Centre(b, res, c), res) in Corners(b, res, cells) && Upper(Centre(b, res, c), res) in Corners(b, res, cells)
  {
    hide Centre;
  }

  lemma HalfInside(corners: set<Point>, g: Box, p: Point, res: real)
    requires IsBoxOf(corners, g) && Lower(p, res) in corners && Upper(p, res) in corners
    ensures InBox(p, Box(g.minX + res / 2.0, g.minY + res / 2.0, g.maxX - res / 2.0, g.maxY - res / 2.0))
  {
    assert InBox(Lower(p, res), g) && InBox(Upper(p, res), g);
  }

  lemma CornerOf(b: Box, res: real, cells: set<Cell>, q: Point) returns (c: Cell)
    requires q in Corners(b, res, cells)
    ensures c in cells && (q == Lower(Centre(b, res, c), res) || q == Upper(Centre(b, res, c), res))
  {
    hide Centre;
    c :| c in cells && (q == Lower(Centre(b, res, c), res) || q == Upper(Centre(b, res, c), res));
  }

  /** Flying the recommended line passes every uncovered centre within half the shorter side of the
      gap. */
  ghost predicate PassesGap(boundary: Polygon, tracks: seq<Track>, res: real, g: Box, line: Line)
    requires |boundary| > 0 && Vertices(boundary) != {} && res > 0.0
  {
    forall c :: c in Gaps(boundary, tracks, res) ==>
      |line| == 2 && NearSegment(Centre(Bounds(boundary), res, c), line[0], line[1], ShorterSide(g) / 2.0)
  }

  lemma MiddleLine(g: Box, res: real, p: Point, line: Line)
    requires res > 0.0 && RunsThrough(g, res, line)
    requires g.minX <= p.x <= g.maxX && g.minY <= p.y <= g.maxY
    ensures NearSegment(p, line[0], line[1], ShorterSide(g) / 2.0)
  {
    var wide := Box(g.minX - res, g.minY - res, g.maxX + res, g.maxY + res);
    var horizontal := g.maxX - g.minX >= g.maxY - g.minY;
    var u, v := Across(!horizontal, p), Across(horizontal, p);
    var w := if horizontal then (g.minY + g.maxY) / 2.0 else (g.minX + g.maxX) / 2.0;
    var r := ShorterSide(g) / 2.0;
    LineWithin(horizontal, wide, u, v, w, r);
    hide NearSegment;
    assert At(horizontal, u, v) == p;
    MiddleOf(line[0].x, line[1].x);
    MiddleOf(line[0].y, line[1].y);
    assert LineAt(horizontal, wide, w) == line;
    var k :| 1 <= k < |line| && NearSegment(p, line[k - 1], line[k], r);
  }

  lemma MiddleOf(a: real, b: real)
    ensures Mix(a, b, 0.5) == (a + b) / 2.0
  {
  }

  lemma Recommended(b: Box, g: Box, res: real, ratio: real)
    requires ratio > 0.0
    ensures var art := GapArtifacts(b, Some(g), res, ratio);
            && art.gap == Rectangle(g) && RunsThrough(g, res, art.recommended)
            && art.filtered == if (g.maxX - g.minX) * (g.maxY - g.minY) < 4.0 * (res * res) then 1 else 0
  {
    MiddleOf(g.minX - res, g.maxX + res);
    MiddleOf((g.minY + g.maxY) / 2.0, (g.minY + g.maxY) / 2.0);
    MiddleOf(g.minY - res, g.maxY + res);
    MiddleOf((g.minX + g.maxX) / 2.0, (g.minX + g.maxX) / 2.0);
    assert res * res * 4.0 == 4.0 * (res * res);
  }

  lemma GapFacts(boundary: Polygon, tracks: seq<Track>, res: real, r: CoverageResult) returns (g: Box)
    requires |boundary| > 0 && Vertices(boundary) != {} && Assess(boundary, tracks, res) == Ok(r)
    requires r.gapRatio != 0.0
    ensures GapBox(boundary, tracks, res) == Some(g)
    ensures IsBoxOf(Corners(Bounds(boundary), res, Gaps(boundary, tracks, res)), g)
    ensures r.gapRatio > 0.0
    ensures var art := GapArtifacts(Bounds(boundary), Some(g), res, r.gapRatio);
            r.gap == art.gap && r.recommended == art.recommended && r.filteredFragments == art.filtered
  {
    Ranges(boundary, tracks, res, r);
    hide Contains, Passes, Area, GapArtifacts;
    CornersEmpty(Bounds(boundary), res, Gaps(boundary, tracks, res));
    g := GapBox(boundary, tracks, res).value;
  }

  lemma CentreInGap(boundary: Polygon, tracks: seq<Track>, res: real, g: Box, c: Cell)
    requires |boundary| > 0 && Vertices(boundary) != {} && res > 0.0 && c in Gaps(boundary, tracks, res)
    requires IsBoxOf(Corners(Bounds(boundary), res, Gaps(boundary, tracks, res)), g)
    ensures InBox(Centre(Bounds(boundary), res, c), g)
  {
    hide Gaps, Bounds, Vertices, Centre;
    var p := Centre(Bounds(boundary), res, c);
    var corners := Corners(Bounds(boundary), res, Gaps(boundary, tracks, res));
    assert Lower(p, res) in corners && Upper(p, res) in corners;
  }

  /** The gap is the rectangle half a cell around the uncovered centres. The recommended line runs through its
      middle along its longer side, ends one cell beyond it on both sides, and passes every uncovered
      centre within half its shorter side; one fragment is filtered exactly when the rectangle is
      smaller than four cells. */
  lemma RecommendedLine(boundary: Polygon, tracks: seq<Track>, res: real, r: CoverageResult)
    requires |boundary| > 0 && Vertices(boundary) != {} && Assess(boundary, tracks, res) == Ok(r)
    requires r.gapRatio != 0.0
    ensures exists g ::
              && IsBoxOf(Corners(Bounds(boundary), res, Gaps(boundary, tracks, res)), g) && Hugs(boundary, tracks, res, g)
              && r.gap == Rectangle(g) && RunsThrough(g, res, r.recommended)
              && PassesGap(boundary, tracks, res, g, r.recommended)
              && r.filteredFragments == if (g.maxX - g.minX) * (g.maxY - g.minY) < 4.0 * (res * res) then 1 else 0
  {
    var g := GapFacts(boundary, tracks, res, r);
    assert res > 0.0;
    hide Assess, Gaps, Bounds, Vertices, Corners, GapArtifacts, RunsThrough, Centre, NearSegment, Hugs, IsBoxOf;
    BoxHugs(boundary, tracks, res, g);
    Recommended(Bounds(boundary), g, res, r.gapRatio);
    assert |r.recommended| == 2 by { TwoEnds(g, res, r.recommended); }
    forall c | c in Gaps(boundary, tracks, res)
      ensures NearSegment(Centre(Bounds(boundary), res, c), r.recommended[0], r.recommended[1], ShorterSide(g) / 2.0)
    {
      CentreInGap(boundary, tracks, res, g, c);
      MiddleLine(g, res, Centre(Bounds(boundary), res, c), r.recommended);
    }
  }

  lemma RectangleCorners(g: Box)
    ensures |Rectangle(g)| == 5 && Rectangle(g)[0] == Point(g.minX, g.minY) && Rectangle(g)[2] == Point(g.maxX, g.maxY)
  {
  }

  lemma TwoEnds(g: Box, res: real, line: Line)
    requires RunsThrough(g, res, line)
    ensures |line| == 2
  {
  }

  /** So one more track that flies the recommended line, its swath as wide as the shorter side of the
      gap, leaves no gap at all. */
  lemma RecommendedLineCloses(boundary: Polygon, tracks: seq<Track>, res: real, r: CoverageResult, track: Track, q: CoverageResult)
    requires |boundary| > 0 && Vertices(boundary) != {} && Assess(boundary, tracks, res) == Ok(r)
    requires r.gapRatio != 0.0 && track.lines == [r.recommended]
    requires |r.gap| == 5 && track.swath >= Min(r.gap[2].x - r.gap[0].x, r.gap[2].y - r.gap[0].y)
    requires Assess(boundary, tracks + [track], res) == Ok(q)
    ensures q.coverageRatio == 1.0 && q.gapRatio == 0.0
  {
    hide Assess, Bounds, Vertices, Inside, Gaps, Seen, CellsSeen, IsBoxOf, Hugs, RunsThrough, PassesGap, Contains;
    RecommendedLine(boundary, tracks, res, r);
    ResolutionPositive(boundary, tracks, res);
    Ranges(boundary, tracks + [track], res, q);
    var g :| IsBoxOf(Corners(Bounds(boundary), res, Gaps(boundary, tracks, res)), g)
             && r.gap == Rectangle(g) && RunsThrough(g, res, r.recommended)
             && PassesGap(boundary, tracks, res, g, r.recommended);
    SeenCells(boundary, tracks, res);
    SeenCells(boundary, tracks + [track], res);
    RectangleCorners(g);
    AllSeen(boundary, tracks, res, g, track);
  }

  lemma AllSeen(boundary: Polygon, tracks: seq<Track>, res: real, g: Box, track: Track)
    requires |boundary| > 0 && Vertices(boundary) != {} && res > 0.0
    requires |track.lines| == 1 && PassesGap(boundary, tracks, res, g, track.lines[0])
    requires ShorterSide(g) <= track.swath
    ensures CellsSeen(boundary, tracks + [track], res) == Inside(boundary, res)
  {
    SeenCells(boundary, tracks, res);
    hide Inside, Bounds, Vertices, Gaps, Seen, NearSegment, Centre;
    forall c | c in Inside(boundary, res) ensures Seen(Centre(Bounds(boundary), res, c), tracks + [track]) {
      var p := Centre(Bounds(boundary), res, c);
      if c in CellsSeen(boundary, tracks, res) {
        SeenStill(p, tracks, track);
      } else {
        SeenNow(p, tracks, track, ShorterSide(g) / 2.0);
      }
    }
  }

  lemma SeenStill(p: Point, tracks: seq<Track>, track: Track)
    requires Seen(p, tracks)
    ensures Seen(p, tracks + [track])
  {
    hide Covers;
    var t :| 0 <= t < |tracks| && Covers(tracks[t], p);
    assert Covers((tracks + [track])[t], p);
  }

  lemma SeenNow(p: Point, tracks: seq<Track>, track: Track, r: real)
    requires |track.lines| == 1 && |track.lines[0]| == 2 && r <= track.swath / 2.0
    requires NearSegment(p, track.lines[0][0], track.lines[0][1], r)
    ensures Seen(p, tracks + [track])
  {
    var line := track.lines[0];
    Wider(p, Project(p, line[0], line[1]), r, track.swath / 2.0);
    assert NearSegment(p, line[1 - 1], line[1], track.swath / 2.0);
    assert LineNear(p, line, track.swath / 2.0);
    assert Covers(track, p);
    assert (tracks + [track])[|tracks|] == track;
  }

  lemma Wider(p: Point, q: Point, r: real, s: real)
    requires Within(p, q, r) && r <= s
    ensures Within(p, q, s)
  {
    SquareOrder(r, s);
  }

  /** Without a gap, the gap and the recommended line shrink to the middle of the bounding box. */
  lemma NoGapMiddle(boundary: Polygon, tracks: seq<Track>, res: real, r: CoverageResult)
    requires |boundary| > 0 && Vertices(boundary) != {} && Assess(boundary, tracks, res) == Ok(r)
    requires r.gapRatio == 0.0
    ensures |r.gap| == 4 && |r.recommended| == 2 && r.filteredFragments == 0
    ensures forall p :: p in r.gap || p in r.recommended ==>
              var b := Bounds(boundary); p.x - b.minX == b.maxX - p.x && p.y - b.minY == b.maxY - p.y
  {
    hide Contains, Passes, Area, Bounds, Vertices, GapBox, PassedAtLeast, Inside;
  }
}
