/** Grid coverage of a survey boundary by the swaths of sonar tracks. */
module Coverage {
  import opened Euclid
  import opened Options
  import opened Rings

  type Line = seq<Point>

  datatype Track = Track(lines: seq<Line>, swath: real)

  // ----- which points a track covers

  ghost predicate LineNear(p: Point, line: Line, r: real) {
    exists k :: 1 <= k < |line| && NearSegment(p, line[k - 1], line[k], r)
  }

  /** Some segment of some line passes within half a swath of p. */
  ghost predicate Covers(track: Track, p: Point) {
    exists i :: 0 <= i < |track.lines| && LineNear(p, track.lines[i], track.swath / 2.0)
  }

  /** How many tracks cover p. */
  ghost function Passes(p: Point, tracks: seq<Track>): nat {
    if |tracks| == 0 then 0
    else Passes(p, tracks[..|tracks| - 1]) + if Covers(tracks[|tracks| - 1], p) then 1 else 0
  }

  method CoveragePasses(p: Point, tracks: seq<Track>) returns (passes: nat)
    ensures passes == Passes(p, tracks)
  {
    passes := 0;
    for t := 0 to |tracks|
      invariant passes == Passes(p, tracks[..t])
    {
      var track := tracks[t];
      var covered := false;
      for i := 0 to |track.lines|
        invariant !covered
        invariant forall n :: 0 <= n < i ==> !LineNear(p, track.lines[n], track.swath / 2.0)
      {
        var line := track.lines[i];
        var k := 1;
        while k < |line|
          invariant 1 <= k <= |line| || k == 1
          invariant !covered
          invariant forall n :: 1 <= n < k ==> !NearSegment(p, line[n - 1], line[n], track.swath / 2.0)
        {
          if NearSegment(p, line[k - 1], line[k], track.swath / 2.0) {
            assert LineNear(p, line, track.swath / 2.0);
            covered := true;
            break;
          }
          k := k + 1;
        }
        if covered {
          break;
        }
      }
      assert covered <==> Covers(track, p);
      assert tracks[..t + 1][..t] == tracks[..t];
      if covered {
        passes := passes + 1;
      }
    }
    assert tracks[..|tracks|] == tracks;
  }

  // ----- the analysis grid

  // cells are (row, column)

  function Columns(b: Box, res: real): int
    requires res > 0.0
  {
    Ceil((b.maxX - b.minX) / res)
  }

  function Rows(b: Box, res: real): int
    requires res > 0.0
  {
    Ceil((b.maxY - b.minY) / res)
  }

  function Centre(b: Box, res: real, c: Cell): Point {
    Point(b.minX + (c.1 as real + 0.5) * res, b.minY + (c.0 as real + 0.5) * res)
  }

  /** The cells whose centre the boundary contains. */
  ghost function Inside(boundary: Polygon, res: real): set<Cell>
    requires |boundary| > 0 && Vertices(boundary) != {} && res > 0.0
  {
    var b := Bounds(boundary);
    set row, column | 0 <= row < Rows(b, res) && 0 <= column < Columns(b, res)
                      && Contains(boundary, Centre(b, res, (row, column))) :: (row, column)
  }

  ghost function PassedAtLeast(boundary: Polygon, tracks: seq<Track>, res: real, n: nat): set<Cell>
    requires |boundary| > 0 && Vertices(boundary) != {} && res > 0.0
  {
    set c | c in Inside(boundary, res) && Passes(Centre(Bounds(boundary), res, c), tracks) >= n
  }

  /** The inside cells no track covers. */
  ghost function Gaps(boundary: Polygon, tracks: seq<Track>, res: real): set<Cell>
    requires |boundary| > 0 && Vertices(boundary) != {} && res > 0.0
  {
    Inside(boundary, res) - PassedAtLeast(boundary, tracks, res, 1)
  }

  function Lower(p: Point, res: real): Point { Point(p.x - res / 2.0, p.y - res / 2.0) }

  function Upper(p: Point, res: real): Point { Point(p.x + res / 2.0, p.y + res / 2.0) }

  /** The opposite corners of every cell of a set. */
  ghost function Corners(b: Box, res: real, cells: set<Cell>): set<Point> {
    (set c | c in cells :: Lower(Centre(b, res, c), res)) +
    (set c | c in cells :: Upper(Centre(b, res, c), res))
  }

  lemma CornersEmpty(b: Box, res: real, cells: set<Cell>)
    ensures Corners(b, res, cells) == {} <==> cells == {}
  {
    if c :| c in cells {
      assert Lower(Centre(b, res, c), res) in Corners(b, res, cells);
    }
  }

  /** The tightest box around the uncovered cells, when there are any. */
  ghost function GapBox(boundary: Polygon, tracks: seq<Track>, res: real): Option<Box>
    requires |boundary| > 0 && Vertices(boundary) != {} && res > 0.0
  {
    var b, gaps := Bounds(boundary), Gaps(boundary, tracks, res);
    CornersEmpty(b, res, gaps);
    if gaps == {} then None else Some(BoxOf(Corners(b, res, gaps)))
  }

  function Widen(box: Option<Box>, lo: Point, hi: Point): Box {
    match box
    case None => Box(lo.x, lo.y, hi.x, hi.y)
    case Some(b) => Box(Min(b.minX, lo.x), Min(b.minY, lo.y), Max(b.maxX, hi.x), Max(b.maxY, hi.y))
  }

  lemma WidenByCell(b: Box, res: real, cells: set<Cell>, box: Option<Box>, c: Cell)
    requires res > 0.0
    requires Tracks(box, Corners(b, res, cells))
    ensures var p := Centre(b, res, c);
            Tracks(Some(Widen(box, Lower(p, res), Upper(p, res))), Corners(b, res, cells + {c}))
  {
    var p := Centre(b, res, c);
    var lo, hi := Lower(p, res), Upper(p, res);
    var before := Corners(b, res, cells);
    GrowBox(before, box, lo);
    GrowBox(before + {lo}, Some(Grow(box, lo)), hi);
    assert Grow(Some(Grow(box, lo)), hi) == Widen(box, lo, hi);
    CornersStep(b, res, cells, c);
    assert before + {lo} + {hi} == Corners(b, res, cells + {c});
  }

  lemma CornersStep(b: Box, res: real, cells: set<Cell>, c: Cell)
    ensures var p := Centre(b, res, c);
            Corners(b, res, cells + {c}) == Corners(b, res, cells) + {Lower(p, res), Upper(p, res)}
  {
    var all := cells + {c};
    forall q | q in Corners(b, res, cells) ensures q in Corners(b, res, all) {
      if d :| d in cells && q == Lower(Centre(b, res, d), res) {
        assert d in all;
      } else {
        var d :| d in cells && q == Upper(Centre(b, res, d), res);
        assert d in all;
      }
    }
    assert c in all;
  }

  // ----- the result

  datatype CoverageError = InvalidGeometry | GeometryTooLarge

  datatype CoverageResult = CoverageResult(
    area: real, coverageRatio: real, overlapRatio: real, gapRatio: real,
    gap: Ring, recommended: Line, filteredFragments: nat, sampleCells: nat)

  datatype Artifacts = Artifacts(gap: Ring, recommended: Line, filtered: nat)

  function GapArtifacts(b: Box, gapBox: Option<Box>, res: real, ratio: real): Artifacts {
    if ratio <= 0.0 || gapBox.None? then
      var c := Point((b.minX + b.maxX) / 2.0, (b.minY + b.maxY) / 2.0);
      Artifacts([c, c, c, c], [c, c], 0)
    else
      var g := gapBox.value;
      var centreX, centreY := (g.minX + g.maxX) / 2.0, (g.minY + g.maxY) / 2.0;
      Artifacts(
        [Point(g.minX, g.minY), Point(g.maxX, g.minY), Point(g.maxX, g.maxY),
         Point(g.minX, g.maxY), Point(g.minX, g.minY)],
        if g.maxX - g.minX >= g.maxY - g.minY
        then [Point(g.minX - res, centreY), Point(g.maxX + res, centreY)]
        else [Point(centreX, g.minY - res), Point(centreX, g.maxY + res)],
        if (g.maxX - g.minX) * (g.maxY - g.minY) < res * res * 4.0 then 1 else 0)
  }

  function Ratio(part: nat, whole: nat): real
    requires whole > 0
  {
    part as real / whole as real
  }

  function Report(area: real, b: Box, gapBox: Option<Box>, res: real,
                  inside: nat, covered: nat, overlap: nat): CoverageResult
    requires inside > 0
  {
    var gapRatio := 1.0 - Ratio(covered, inside);
    var art := GapArtifacts(b, gapBox, res, gapRatio);
    CoverageResult(area, Ratio(covered, inside), Ratio(overlap, inside), gapRatio,
                   art.gap, art.recommended, art.filtered, inside)
  }

  ghost function Summarise(boundary: Polygon, tracks: seq<Track>, res: real): CoverageResult
    requires |boundary| > 0 && Vertices(boundary) != {} && res > 0.0
    requires Inside(boundary, res) != {}
  {
    Report(Area(boundary), Bounds(boundary), GapBox(boundary, tracks, res), res, |Inside(boundary, res)|,
           |PassedAtLeast(boundary, tracks, res, 1)|, |PassedAtLeast(boundary, tracks, res, 2)|)
  }

  /** What an analysis of the boundary at the given resolution must answer, errors included. */
  ghost function Assess(boundary: Polygon, tracks: seq<Track>, res: real): Result<CoverageResult, CoverageError>
    requires |boundary| > 0 && Vertices(boundary) != {}
  {
    var b := Bounds(boundary);
    if res <= 0.0 || tracks == [] || b.maxX - b.minX <= 0.0 || b.maxY - b.minY <= 0.0 then Err(InvalidGeometry)
    else if Columns(b, res) * Rows(b, res) > 60000 then Err(GeometryTooLarge)
    else if Inside(boundary, res) == {} then Err(InvalidGeometry)
    else Ok(Summarise(boundary, tracks, res))
  }

  // ----- the scan, row by row

  /** The cells of a set that come before (row, column) in scan order. */
  ghost function Scanned(cells: set<Cell>, row: int, column: int): set<Cell> {
    set c | c in cells && (c.0 < row || (c.0 == row && c.1 < column))
  }

  lemma ScanCell(cells: set<Cell>, row: int, column: int)
    ensures Scanned(cells, row, column + 1)
         == Scanned(cells, row, column) + if (row, column) in cells then {(row, column)} else {}
    ensures |Scanned(cells, row, column + 1)|
         == |Scanned(cells, row, column)| + if (row, column) in cells then 1 else 0
  {
  }

  lemma ScanRow(cells: set<Cell>, row: int, columns: int)
    requires forall c :: c in cells ==> 0 <= c.1 < columns
    ensures Scanned(cells, row + 1, 0) == Scanned(cells, row, columns)
  {
  }

  lemma ScanAll(cells: set<Cell>, rows: int)
    requires forall c :: c in cells ==> 0 <= c.0 < rows && 0 <= c.1
    ensures Scanned(cells, 0, 0) == {} && Scanned(cells, rows, 0) == cells
  {
  }

  /** What the scan has counted when it reaches (row, column). */
  ghost predicate ScanState(boundary: Polygon, tracks: seq<Track>, res: real, row: int, column: int,
                            inside: int, covered: int, overlap: int, gapBox: Option<Box>)
    requires |boundary| > 0 && Vertices(boundary) != {} && res > 0.0
  {
    && inside == |Scanned(Inside(boundary, res), row, column)|
    && covered == |Scanned(PassedAtLeast(boundary, tracks, res, 1), row, column)|
    && overlap == |Scanned(PassedAtLeast(boundary, tracks, res, 2), row, column)|
    && Tracks(gapBox, Corners(Bounds(boundary), res, Scanned(Gaps(boundary, tracks, res), row, column)))
  }

  lemma ScanStart(boundary: Polygon, tracks: seq<Track>, res: real)
    requires |boundary| > 0 && Vertices(boundary) != {} && res > 0.0
    ensures ScanState(boundary, tracks, res, 0, 0, 0, 0, 0, None)
  {
    var rows := Rows(Bounds(boundary), res);
    ScanAll(Inside(boundary, res), rows);
    ScanAll(PassedAtLeast(boundary, tracks, res, 1), rows);
    ScanAll(PassedAtLeast(boundary, tracks, res, 2), rows);
    ScanAll(Gaps(boundary, tracks, res), rows);
    CornersEmpty(Bounds(boundary), res, {});
  }

  lemma ScanNextRow(boundary: Polygon, tracks: seq<Track>, res: real, row: int,
                    inside: int, covered: int, overlap: int, gapBox: Option<Box>)
    requires |boundary| > 0 && Vertices(boundary) != {} && res > 0.0
    requires ScanState(boundary, tracks, res, row, Columns(Bounds(boundary), res), inside, covered, overlap, gapBox)
    ensures ScanState(boundary, tracks, res, row + 1, 0, inside, covered, overlap, gapBox)
  {
    var columns := Columns(Bounds(boundary), res);
    ScanRow(Inside(boundary, res), row, columns);
    ScanRow(PassedAtLeast(boundary, tracks, res, 1), row, columns);
    ScanRow(PassedAtLeast(boundary, tracks, res, 2), row, columns);
    ScanRow(Gaps(boundary, tracks, res), row, columns);
  }

  ghost predicate OnGrid(boundary: Polygon, res: real, row: int, column: int)
    requires |boundary| > 0 && Vertices(boundary) != {} && res > 0.0
  {
    0 <= row < Rows(Bounds(boundary), res) && 0 <= column < Columns(Bounds(boundary), res)
  }

  lemma NoMembership(boundary: Polygon, tracks: seq<Track>, res: real, c: Cell)
    requires |boundary| > 0 && Vertices(boundary) != {} && res > 0.0
    requires !Contains(boundary, Centre(Bounds(boundary), res, c))
    ensures c !in Inside(boundary, res) && c !in Gaps(boundary, tracks, res)
    ensures forall n :: c !in PassedAtLeast(boundary, tracks, res, n)
  {
    hide Contains, Passes, Bounds, Vertices, Centre;
  }

  lemma ScanOutside(boundary: Polygon, tracks: seq<Track>, res: real, row: int, column: int,
                    inside: int, covered: int, overlap: int, gapBox: Option<Box>)
    requires |boundary| > 0 && Vertices(boundary) != {} && res > 0.0
    requires ScanState(boundary, tracks, res, row, column, inside, covered, overlap, gapBox)
    requires !Contains(boundary, Centre(Bounds(boundary), res, (row, column)))
    ensures ScanState(boundary, tracks, res, row, column + 1, inside, covered, overlap, gapBox)
  {
    hide Inside, PassedAtLeast, Gaps, Corners, Scanned, Contains, Bounds, Vertices, Centre;
    NoMembership(boundary, tracks, res, (row, column));
    ScanCell(Inside(boundary, res), row, column);
    ScanCell(PassedAtLeast(boundary, tracks, res, 1), row, column);
    ScanCell(PassedAtLeast(boundary, tracks, res, 2), row, column);
    ScanCell(Gaps(boundary, tracks, res), row, column);
  }

  lemma Membership(boundary: Polygon, tracks: seq<Track>, res: real, c: Cell)
    requires |boundary| > 0 && Vertices(boundary) != {} && res > 0.0
    requires OnGrid(boundary, res, c.0, c.1) && Contains(boundary, Centre(Bounds(boundary), res, c))
    ensures var passes := Passes(Centre(Bounds(boundary), res, c), tracks);
            && c in Inside(boundary, res)
            && (c in PassedAtLeast(boundary, tracks, res, 1) <==> passes > 0)
            && (c in PassedAtLeast(boundary, tracks, res, 2) <==> passes > 1)
            && (c in Gaps(boundary, tracks, res) <==> passes == 0)
  {
    assert c == (c.0, c.1);
  }

  lemma ScanInside(boundary: Polygon, tracks: seq<Track>, res: real, row: int, column: int,
                   inside: int, covered: int, overlap: int, gapBox: Option<Box>, passes: nat, p: Point)
    requires |boundary| > 0 && Vertices(boundary) != {} && res > 0.0
    requires ScanState(boundary, tracks, res, row, column, inside, covered, overlap, gapBox)
    requires OnGrid(boundary, res, row, column) && p == Centre(Bounds(boundary), res, (row, column))
    requires Contains(boundary, p) && passes == Passes(p, tracks)
    ensures ScanState(boundary, tracks, res, row, column + 1, inside + 1,
                      covered + if passes > 0 then 1 else 0, overlap + if passes > 1 then 1 else 0,
                      if passes == 0 then Some(Widen(gapBox, Lower(p, res), Upper(p, res))) else gapBox)
  {
    hide Inside, PassedAtLeast, Gaps, Bounds, Vertices, Contains, Passes, OnGrid, Corners;
    var b := Bounds(boundary);
    Membership(boundary, tracks, res, (row, column));
    ScanCell(Inside(boundary, res), row, column);
    ScanCell(PassedAtLeast(boundary, tracks, res, 1), row, column);
    ScanCell(PassedAtLeast(boundary, tracks, res, 2), row, column);
    ScanBox(b, res, Gaps(boundary, tracks, res), row, column, gapBox);
  }

  lemma ScanBox(b: Box, res: real, gaps: set<Cell>, row: int, column: int, gapBox: Option<Box>)
    requires res > 0.0 && Tracks(gapBox, Corners(b, res, Scanned(gaps, row, column)))
    ensures var p := Centre(b, res, (row, column));
            Tracks(if (row, column) in gaps then Some(Widen(gapBox, Lower(p, res), Upper(p, res))) else gapBox,
                   Corners(b, res, Scanned(gaps, row, column + 1)))
  {
    ScanCell(gaps, row, column);
    if (row, column) in gaps {
      WidenByCell(b, res, Scanned(gaps, row, column), gapBox, (row, column));
    } else {
      assert Scanned(gaps, row, column + 1) == Scanned(gaps, row, column);
    }
  }

  lemma ScanEnd(boundary: Polygon, tracks: seq<Track>, res: real,
                inside: int, covered: int, overlap: int, gapBox: Option<Box>)
    requires |boundary| > 0 && Vertices(boundary) != {} && res > 0.0
    requires ScanState(boundary, tracks, res, Rows(Bounds(boundary), res), 0, inside, covered, overlap, gapBox)
    ensures inside == |Inside(boundary, res)|
    ensures covered == |PassedAtLeast(boundary, tracks, res, 1)|
    ensures overlap == |PassedAtLeast(boundary, tracks, res, 2)|
    ensures gapBox == GapBox(boundary, tracks, res)
  {
    var rows := Rows(Bounds(boundary), res);
    ScanAll(Inside(boundary, res), rows);
    ScanAll(PassedAtLeast(boundary, tracks, res, 1), rows);
    ScanAll(PassedAtLeast(boundary, tracks, res, 2), rows);
    ScanAll(Gaps(boundary, tracks, res), rows);
    GapBoxFound(boundary, tracks, res, gapBox);
  }

  method ScanGrid(boundary: Polygon, tracks: seq<Track>, res: real, b: Box)
    returns (inside: nat, covered: nat, overlap: nat, gapBox: Option<Box>)
    requires |boundary| > 0 && Vertices(boundary) != {} && res > 0.0 && b == Bounds(boundary)
    ensures inside == |Inside(boundary, res)|
    ensures covered == |PassedAtLeast(boundary, tracks, res, 1)|
    ensures overlap == |PassedAtLeast(boundary, tracks, res, 2)|
    ensures gapBox == GapBox(boundary, tracks, res)
  {
    hide ScanState, Inside, PassedAtLeast, GapBox, Bounds, Vertices, Contains, Passes, Columns, Rows;
    inside, covered, overlap, gapBox := 0, 0, 0, None;
    var columns, rows := Columns(b, res), Rows(b, res);
    GridSteps(boundary, res);
    ScanStart(boundary, tracks, res);
    var row := 0;
    while row < rows
      invariant 0 <= row <= rows
      invariant ScanState(boundary, tracks, res, row, 0, inside, covered, overlap, gapBox)
    {
      var column := 0;
      while column < columns
        invariant 0 <= column <= columns
        invariant ScanState(boundary, tracks, res, row, column, inside, covered, overlap, gapBox)
      {
        var point := Centre(b, res, (row, column));
        var contained := PolygonContains(boundary, point);
        if contained {
          var passes := CoveragePasses(point, tracks);
          ScanInside(boundary, tracks, res, row, column, inside, covered, overlap, gapBox, passes, point);
          inside := inside + 1;
          if passes > 0 {
            covered := covered + 1;
          }
          if passes > 1 {
            overlap := overlap + 1;
          }
          if passes == 0 {
            gapBox := Some(Widen(gapBox, Lower(point, res), Upper(point, res)));
          }
        } else {
          ScanOutside(boundary, tracks, res, row, column, inside, covered, overlap, gapBox);
        }
        column := column + 1;
      }
      ScanNextRow(boundary, tracks, res, row, inside, covered, overlap, gapBox);
      row := row + 1;
    }
    ScanEnd(boundary, tracks, res, inside, covered, overlap, gapBox);
  }

  method CalculateCoverage(boundary: Polygon, tracks: seq<Track>, res: real)
    returns (r: Result<CoverageResult, CoverageError>)
    requires |boundary| > 0 && Vertices(boundary) != {}
    ensures r == Assess(boundary, tracks, res)
  {
    if res <= 0.0 {
      return Err(InvalidGeometry);
    }
    if |tracks| == 0 {
      return Err(InvalidGeometry);
    }
    var b := PolygonBounds(boundary);
    var width, height := b.maxX - b.minX, b.maxY - b.minY;
    if width <= 0.0 || height <= 0.0 {
      return Err(InvalidGeometry);
    }
    if Columns(b, res) * Rows(b, res) > 60000 {
      return Err(GeometryTooLarge);
    }
    var inside, covered, overlap, gapBox := ScanGrid(boundary, tracks, res, b);
    if inside == 0 {
      return Err(InvalidGeometry);
    }
    var area := PolygonArea(boundary);
    r := Ok(Report(area, b, gapBox, res, inside, covered, overlap));
  }

  /** Bounds are ordered, so the grid never has a negative number of rows or columns. */
  lemma GridSteps(boundary: Polygon, res: real)
    requires Vertices(boundary) != {} && res > 0.0
    ensures Columns(Bounds(boundary), res) >= 0 && Rows(Bounds(boundary), res) >= 0
  {
    var b := Bounds(boundary);
    var q :| q in Vertices(boundary) && q.x == b.minX;
    assert InBox(q, b);
    QuotientSign(b.maxX - b.minX, res);
    QuotientSign(b.maxY - b.minY, res);
  }

  lemma QuotientSign(n: real, d: real)
    requires d > 0.0 && n >= 0.0
    ensures n / d >= 0.0
  {
    var q := n / d;
    Quotient(n, d);
    if q < 0.0 { var _ := Product(-q, d); }
  }

  lemma GapBoxFound(boundary: Polygon, tracks: seq<Track>, res: real, box: Option<Box>)
    requires |boundary| > 0 && Vertices(boundary) != {} && res > 0.0
    requires Tracks(box, Corners(Bounds(boundary), res, Gaps(boundary, tracks, res)))
    ensures box == GapBox(boundary, tracks, res)
  {
    var gaps := Gaps(boundary, tracks, res);
    var corners := Corners(Bounds(boundary), res, gaps);
    CornersEmpty(Bounds(boundary), res, gaps);
    if gaps != {} {
      BoxUnique(corners, box.value, BoxOf(corners));
    }
  }
}
