/** Laws of the coverage analysis: ranges, tight gap boxes, monotonicity and invariances. */
module CoverageLaws {
  import opened Euclid
  import opened Options
  import opened Rings
  import opened Coverage
  import States

  lemma Cardinalities(small: set<Cell>, big: set<Cell>)
    requires small <= big
    ensures |small| <= |big|
    ensures |small| == |big| <==> big - small == {}
  {
    assert big == small + (big - small);
    assert |big| == |small| + |big - small|;
  }

  lemma RatioOrder(m: nat, n: nat, whole: nat)
    requires whole > 0
    ensures m <= n ==> Ratio(m, whole) <= Ratio(n, whole)
    ensures m < n ==> Ratio(m, whole) < Ratio(n, whole)
    ensures Ratio(0, whole) == 0.0 && Ratio(whole, whole) == 1.0
  {
    var a, b, w := m as real, n as real, whole as real;
    Quotient(a, w);
    Quotient(b, w);
    Quotient(b - a, w);
    assert w * (b / w - a / w) == w * ((b - a) / w);
    if m < n && b / w - a / w <= 0.0 { var _ := Product(a / w - b / w, w); }
  }

  function Rectangle(g: Box): Ring {
    [Point(g.minX, g.minY), Point(g.maxX, g.minY), Point(g.maxX, g.maxY),
     Point(g.minX, g.maxY), Point(g.minX, g.minY)]
  }

  lemma ReportRanges(area: real, b: Box, gapBox: Option<Box>, res: real,
                     inside: nat, covered: nat, overlap: nat)
    requires overlap <= covered <= inside && inside > 0
    ensures var r := Report(area, b, gapBox, res, inside, covered, overlap);
            && 0.0 <= r.overlapRatio <= r.coverageRatio <= 1.0
            && r.gapRatio == 1.0 - r.coverageRatio
            && (r.gapRatio == 0.0 <==> covered == inside)
            && (covered == inside ==> r.filteredFragments == 0)
            && (covered < inside && gapBox.Some? ==> r.gap == Rectangle(gapBox.value))
  {
    RatioOrder(overlap, covered, inside);
    RatioOrder(covered, inside, inside);
    RatioOrder(0, overlap, inside);
  }

  lemma Counts(boundary: Polygon, tracks: seq<Track>, res: real)
    requires |boundary| > 0 && Vertices(boundary) != {} && res > 0.0
    ensures |PassedAtLeast(boundary, tracks, res, 2)| <= |PassedAtLeast(boundary, tracks, res, 1)|
         <= |Inside(boundary, res)|
    ensures |PassedAtLeast(boundary, tracks, res, 1)| == |Inside(boundary, res)|
       <==> Gaps(boundary, tracks, res) == {}
  {
    var ins, one := Inside(boundary, res), PassedAtLeast(boundary, tracks, res, 1);
    Cardinalities(PassedAtLeast(boundary, tracks, res, 2), one);
    Cardinalities(one, ins);
  }

  /** Ratios are proportions, and the reported gap is the tight box around the uncovered cells
      exactly when some cell is uncovered. */
  lemma Ranges(boundary: Polygon, tracks: seq<Track>, res: real, r: CoverageResult)
    requires |boundary| > 0 && Vertices(boundary) != {}
    requires Assess(boundary, tracks, res) == Ok(r)
    ensures 0.0 <= r.overlapRatio <= r.coverageRatio <= 1.0
    ensures r.gapRatio == 1.0 - r.coverageRatio
    ensures r.gapRatio == 0.0 <==> Gaps(boundary, tracks, res) == {}
    ensures r.gapRatio == 0.0 ==> r.filteredFragments == 0
    ensures r.gapRatio != 0.0 ==>
              var corners := Corners(Bounds(boundary), res, Gaps(boundary, tracks, res));
              exists g :: IsBoxOf(corners, g) && r.gap == Rectangle(g)
  {
    Counts(boundary, tracks, res);
    var gapBox := GapBox(boundary, tracks, res);
    ReportRanges(Area(boundary), Bounds(boundary), gapBox, res, |Inside(boundary, res)|,
                 |PassedAtLeast(boundary, tracks, res, 1)|, |PassedAtLeast(boundary, tracks, res, 2)|);
    if gapBox.Some? {
      CornersEmpty(Bounds(boundary), res, Gaps(boundary, tracks, res));
      assert IsBoxOf(Corners(Bounds(boundary), res, Gaps(boundary, tracks, res)), gapBox.value);
    }
  }

  lemma ResolutionPositive(boundary: Polygon, tracks: seq<Track>, res: real)
    requires |boundary| > 0 && Vertices(boundary) != {} && Assess(boundary, tracks, res).Ok?
    ensures res > 0.0
  {
  }

  // ----- more tracks

  /** A grid of so many rows and columns. */
  ghost function Grid(rows: nat, columns: nat): set<Cell> {
    set row, column | 0 <= row < rows && 0 <= column < columns :: (row, column)
  }

  ghost function GridRow(row: nat, columns: nat): set<Cell> {
    set column | 0 <= column < columns :: (row, column)
  }

  lemma {:induction false} GridSize(rows: nat, columns: nat)
    ensures |Grid(rows, columns)| == rows * columns
  {
    if rows == 0 {
      NoGrid(columns);
    } else {
      hide Grid, GridRow;
      var n := rows - 1;
      GridSize(n, columns);
      RowSize(n, columns);
      OneMoreRow(n, columns);
      assert |Grid(rows, columns)| == |Grid(n, columns)| + |GridRow(n, columns)|;
      OneMoreColumn(n, columns);
    }
  }

  lemma NoGrid(columns: nat)
    ensures Grid(0, columns) == {}
  {
  }

  lemma OneMoreColumn(n: nat, columns: nat)
    ensures (n + 1) * columns == n * columns + columns
  {
  }

  lemma OneMoreRow(n: nat, columns: nat)
    ensures Grid(n + 1, columns) == Grid(n, columns) + GridRow(n, columns)
    ensures Grid(n, columns) !! GridRow(n, columns)
  {
  }

  lemma {:induction false} RowSize(row: nat, columns: nat)
    ensures |GridRow(row, columns)| == columns
  {
    if columns == 0 {
      assert GridRow(row, columns) == {};
    } else {
      RowSize(row, columns - 1);
      assert GridRow(row, columns) == GridRow(row, columns - 1) + {(row, columns - 1)};
    }
  }

  /** No analysis samples more than 60000 cells or filters more than one fragment. */
  lemma FewCells(boundary: Polygon, tracks: seq<Track>, res: real, r: CoverageResult)
    requires |boundary| > 0 && Vertices(boundary) != {}
    requires Assess(boundary, tracks, res) == Ok(r)
    ensures 0 < r.sampleCells <= 60000 && r.filteredFragments <= 1
  {
    hide Contains, Bounds, Vertices, Rows, Columns, GapBox, PassedAtLeast, Area, Inside, Grid;
    var b := Bounds(boundary);
    assert res > 0.0;
    GridSteps(boundary, res);
    GridSize(Rows(b, res), Columns(b, res));
    InGrid(boundary, res);
    Cardinalities(Inside(boundary, res), Grid(Rows(b, res), Columns(b, res)));
  }

  lemma InGrid(boundary: Polygon, res: real)
    requires |boundary| > 0 && Vertices(boundary) != {} && res > 0.0
    requires Rows(Bounds(boundary), res) >= 0 && Columns(Bounds(boundary), res) >= 0
    ensures Inside(boundary, res) <= Grid(Rows(Bounds(boundary), res), Columns(Bounds(boundary), res))
  {
    hide Contains, Bounds, Vertices, Rows, Columns, Centre;
  }

  lemma PassesAppend(p: Point, s: seq<Track>, t: seq<Track>)
    ensures Passes(p, s + t) == Passes(p, s) + Passes(p, t)
  {
    if |t| == 0 {
      assert s + t == s;
    } else {
      assert (s + t)[..|s + t| - 1] == s + t[..|t| - 1];
      PassesAppend(p, s, t[..|t| - 1]);
    }
  }

  ghost predicate MorePasses(small: seq<Track>, big: seq<Track>) {
    forall p :: Passes(p, small) <= Passes(p, big)
  }

  lemma SeverityOrder(small: real, big: real)
    requires small <= big
    ensures States.SeverityForRatio(small).Rank() <= States.SeverityForRatio(big).Rank()
  {
  }

  lemma MoreCells(boundary: Polygon, small: seq<Track>, big: seq<Track>, res: real)
    requires |boundary| > 0 && Vertices(boundary) != {} && res > 0.0
    requires MorePasses(small, big)
    ensures |PassedAtLeast(boundary, small, res, 1)| <= |PassedAtLeast(boundary, big, res, 1)|
    ensures |PassedAtLeast(boundary, small, res, 2)| <= |PassedAtLeast(boundary, big, res, 2)|
    ensures Gaps(boundary, big, res) <= Gaps(boundary, small, res)
  {
    Cardinalities(PassedAtLeast(boundary, small, res, 1), PassedAtLeast(boundary, big, res, 1));
    Cardinalities(PassedAtLeast(boundary, small, res, 2), PassedAtLeast(boundary, big, res, 2));
  }

  /** More passes everywhere: coverage and overlap can only grow, gap and severity can only
      shrink, and the grid stays the same. */
  lemma Monotone(boundary: Polygon, small: seq<Track>, big: seq<Track>, res: real, r: CoverageResult)
    requires |boundary| > 0 && Vertices(boundary) != {}
    requires MorePasses(small, big) && big != []
    requires Assess(boundary, small, res) == Ok(r)
    ensures Assess(boundary, big, res).Ok?
    ensures var q := Assess(boundary, big, res).value;
            && q.sampleCells == r.sampleCells && q.area == r.area
            && q.coverageRatio >= r.coverageRatio && q.overlapRatio >= r.overlapRatio
            && q.gapRatio <= r.gapRatio
            && States.SeverityForRatio(q.gapRatio).Rank() <= States.SeverityForRatio(r.gapRatio).Rank()
  {
    var inside := |Inside(boundary, res)|;
    var q := Summarise(boundary, big, res);
    MoreCells(boundary, small, big, res);
    RatioOrder(|PassedAtLeast(boundary, small, res, 1)|, |PassedAtLeast(boundary, big, res, 1)|, inside);
    RatioOrder(|PassedAtLeast(boundary, small, res, 2)|, |PassedAtLeast(boundary, big, res, 2)|, inside);
    SeverityOrder(q.gapRatio, r.gapRatio);
  }

  /** The gap box shrinks with the set of uncovered cells. */
  lemma GapBoxShrinks(boundary: Polygon, small: seq<Track>, big: seq<Track>, res: real)
    requires |boundary| > 0 && Vertices(boundary) != {} && res > 0.0
    requires MorePasses(small, big)
    ensures GapBox(boundary, big, res).Some? ==>
              && GapBox(boundary, small, res).Some?
              && BoxWithin(GapBox(boundary, big, res).value, GapBox(boundary, small, res).value)
  {
    var b := Bounds(boundary);
    MoreCells(boundary, small, big, res);
    CornersMonotone(b, res, Gaps(boundary, big, res), Gaps(boundary, small, res));
    CornersEmpty(b, res, Gaps(boundary, big, res));
    CornersEmpty(b, res, Gaps(boundary, small, res));
  }

  predicate BoxWithin(inner: Box, outer: Box) {
    outer.minX <= inner.minX && outer.minY <= inner.minY && inner.maxX <= outer.maxX && inner.maxY <= outer.maxY
  }

  lemma CornersMonotone(b: Box, res: real, small: set<Cell>, big: set<Cell>)
    requires small <= big
    ensures Corners(b, res, small) <= Corners(b, res, big)
    ensures Corners(b, res, small) != {} && Corners(b, res, big) != {} ==>
              BoxWithin(BoxOf(Corners(b, res, small)), BoxOf(Corners(b, res, big)))
  {
    forall q | q in Corners(b, res, small) ensures q in Corners(b, res, big) {
      if c :| c in small && q == Lower(Centre(b, res, c), res) {
        assert c in big;
      } else {
        var c :| c in small && q == Upper(Centre(b, res, c), res);
        assert c in big;
      }
    }
  }

  function Inserted(tracks: seq<Track>, k: nat, track: Track): seq<Track>
    requires k <= |tracks|
  {
    tracks[..k] + [track] + tracks[k..]
  }

  /** Adding one track, wherever it lands in the order. */
  lemma AddTrack(boundary: Polygon, tracks: seq<Track>, k: nat, track: Track, res: real, r: CoverageResult)
    requires |boundary| > 0 && Vertices(boundary) != {} && k <= |tracks|
    requires Assess(boundary, tracks, res) == Ok(r)
    ensures Assess(boundary, Inserted(tracks, k, track), res).Ok?
    ensures var q := Assess(boundary, Inserted(tracks, k, track), res).value;
            && q.sampleCells == r.sampleCells
            && q.coverageRatio >= r.coverageRatio && q.overlapRatio >= r.overlapRatio
            && q.gapRatio <= r.gapRatio
            && States.SeverityForRatio(q.gapRatio).Rank() <= States.SeverityForRatio(r.gapRatio).Rank()
    ensures GapBox(boundary, Inserted(tracks, k, track), res).Some? ==>
              && GapBox(boundary, tracks, res).Some?
              && BoxWithin(GapBox(boundary, Inserted(tracks, k, track), res).value,
                           GapBox(boundary, tracks, res).value)
  {
    forall p ensures Passes(p, tracks) <= Passes(p, Inserted(tracks, k, track)) {
      PassesInserted(p, tracks, k, track);
    }
    Monotone(boundary, tracks, Inserted(tracks, k, track), res, r);
    GapBoxShrinks(boundary, tracks, Inserted(tracks, k, track), res);
  }

  lemma PassesInserted(p: Point, tracks: seq<Track>, k: nat, track: Track)
    requires k <= |tracks|
    ensures Passes(p, Inserted(tracks, k, track)) == Passes(p, tracks) + if Covers(track, p) then 1 else 0
  {
    hide Covers, Passes;
    var front := tracks[..k] + [track];
    PassesAppend(p, front, tracks[k..]);
    PassesAppend(p, tracks[..k], tracks[k..]);
    PassesLast(p, tracks[..k], track);
    assert tracks[..k] + tracks[k..] == tracks;
  }

  lemma PassesLast(p: Point, tracks: seq<Track>, track: Track)
    ensures Passes(p, tracks + [track]) == Passes(p, tracks) + if Covers(track, p) then 1 else 0
  {
    hide Covers;
    assert (tracks + [track])[..|tracks|] == tracks;
  }

  // ----- the same passes

  ghost predicate SamePasses(s: seq<Track>, t: seq<Track>) {
    forall p :: Passes(p, s) == Passes(p, t)
  }

  lemma SameAssessment(boundary: Polygon, s: seq<Track>, t: seq<Track>, res: real)
    requires |boundary| > 0 && Vertices(boundary) != {}
    requires SamePasses(s, t) && (s == [] <==> t == [])
    ensures Assess(boundary, s, res) == Assess(boundary, t, res)
  {
    if res > 0.0 {
      assert PassedAtLeast(boundary, s, res, 1) == PassedAtLeast(boundary, t, res, 1);
      assert PassedAtLeast(boundary, s, res, 2) == PassedAtLeast(boundary, t, res, 2);
    }
  }

  lemma TakeOut(t: seq<Track>, k: nat) returns (rest: seq<Track>)
    requires k < |t|
    ensures k <= |rest| && Inserted(rest, k, t[k]) == t
    ensures multiset(rest) == multiset(t) - multiset{t[k]}
  {
    rest := t[..k] + t[k + 1..];
    assert t == t[..k] + [t[k]] + t[k + 1..];
  }

  lemma {:induction false} PassesPermuted(p: Point, s: seq<Track>, t: seq<Track>)
    requires multiset(s) == multiset(t)
    ensures Passes(p, s) == Passes(p, t)
    decreases |s|
  {
    if |s| == 0 {
      assert |multiset(t)| == 0;
    } else {
      assert s[0] in multiset(t);
      var k :| 0 <= k < |t| && t[k] == s[0];
      var restS := TakeOut(s, 0);
      var restT := TakeOut(t, k);
      PassesPermuted(p, restS, restT);
      PassesInserted(p, restS, 0, s[0]);
      PassesInserted(p, restT, k, t[k]);
    }
  }

  /** The order in which tracks are supplied does not matter. */
  lemma TracksPermuted(boundary: Polygon, s: seq<Track>, t: seq<Track>, res: real)
    requires |boundary| > 0 && Vertices(boundary) != {}
    requires multiset(s) == multiset(t)
    ensures Assess(boundary, s, res) == Assess(boundary, t, res)
  {
    forall p ensures Passes(p, s) == Passes(p, t) {
      PassesPermuted(p, s, t);
    }
    assert |multiset(s)| == |s| && |multiset(t)| == |t|;
    SameAssessment(boundary, s, t, res);
  }

  // ----- the same lines

  lemma LineReversed(p: Point, line: Line, r: real)
    ensures LineNear(p, Reverse(line), r) <==> LineNear(p, line, r)
  {
    var back := Reverse(line);
    var n := |line|;
    ReverseAt(line);
    if k :| 1 <= k < n && NearSegment(p, line[k - 1], line[k], r) {
      NearSegmentReversed(p, line[k - 1], line[k], r);
      assert back[n - k - 1] == line[k] && back[n - k] == line[k - 1];
    }
    if k :| 1 <= k < n && NearSegment(p, back[k - 1], back[k], r) {
      NearSegmentReversed(p, back[k - 1], back[k], r);
      assert back[k - 1] == line[n - k] && back[k] == line[n - k - 1];
    }
  }

  lemma {:induction false} ReverseAt(path: seq<Point>)
    ensures |Reverse(path)| == |path|
    ensures forall k :: 0 <= k < |path| ==> Reverse(path)[k] == path[|path| - 1 - k]
  {
    if |path| > 0 {
      ReverseAt(path[..|path| - 1]);
    }
  }

  function WithVertex(line: Line, k: nat, v: Point): Line
    requires 1 <= k < |line|
  {
    line[..k] + [v] + line[k..]
  }

  lemma VertexInserted(p: Point, line: Line, k: nat, u: real, v: Point, r: real)
    requires 1 <= k < |line| && 0.0 <= u <= 1.0 && v == Along(line[k - 1], line[k], u)
    ensures LineNear(p, WithVertex(line, k, v), r) <==> LineNear(p, line, r)
  {
    var more := WithVertex(line, k, v);
    NearSegmentSplit(p, line[k - 1], line[k], u, v, r);
    if j :| 1 <= j < |line| && NearSegment(p, line[j - 1], line[j], r) {
      if j < k {
        assert more[j - 1] == line[j - 1] && more[j] == line[j];
      } else if j > k {
        assert more[j] == line[j - 1] && more[j + 1] == line[j];
      } else {
        assert more[k - 1] == line[k - 1] && more[k] == v && more[k + 1] == line[k];
      }
    }
    if j :| 1 <= j < |more| && NearSegment(p, more[j - 1], more[j], r) {
      if j < k {
        assert more[j - 1] == line[j - 1] && more[j] == line[j];
      } else if j > k + 1 {
        assert more[j - 1] == line[j - 2] && more[j] == line[j - 1];
        assert 1 <= j - 1 < |line| && NearSegment(p, line[j - 1 - 1], line[j - 1], r);
      } else {
        assert more[k - 1] == line[k - 1] && more[k] == v && more[k + 1] == line[k];
      }
    }
  }

  /** Replacing one line of a track by one that is near the same points. */
  lemma LineReplaced(boundary: Polygon, tracks: seq<Track>, t: nat, i: nat, line: Line, res: real)
    requires |boundary| > 0 && Vertices(boundary) != {}
    requires t < |tracks| && i < |tracks[t].lines|
    requires forall p, r :: LineNear(p, line, r) <==> LineNear(p, tracks[t].lines[i], r)
    ensures var track := tracks[t].(lines := tracks[t].lines[i := line]);
            Assess(boundary, tracks[t := track], res) == Assess(boundary, tracks, res)
  {
    var track := tracks[t].(lines := tracks[t].lines[i := line]);
    forall p ensures Passes(p, tracks[t := track]) == Passes(p, tracks) {
      SameCovers(tracks[t], i, line, p);
      PassesAppend(p, tracks[..t], [tracks[t]]);
      PassesAppend(p, tracks[..t], [track]);
      PassesAppend(p, tracks[..t] + [tracks[t]], tracks[t + 1..]);
      PassesAppend(p, tracks[..t] + [track], tracks[t + 1..]);
      assert tracks == tracks[..t] + [tracks[t]] + tracks[t + 1..];
      assert tracks[t := track] == tracks[..t] + [track] + tracks[t + 1..];
    }
    SameAssessment(boundary, tracks[t := track], tracks, res);
  }

  lemma SameCovers(track: Track, i: nat, line: Line, p: Point)
    requires i < |track.lines|
    requires LineNear(p, line, track.swath / 2.0) <==> LineNear(p, track.lines[i], track.swath / 2.0)
    ensures Covers(track.(lines := track.lines[i := line]), p) <==> Covers(track, p)
  {
    var other := track.(lines := track.lines[i := line]);
    if j :| 0 <= j < |track.lines| && LineNear(p, track.lines[j], track.swath / 2.0) {
      assert LineNear(p, other.lines[j], track.swath / 2.0);
    }
    if j :| 0 <= j < |other.lines| && LineNear(p, other.lines[j], track.swath / 2.0) {
      assert LineNear(p, track.lines[j], track.swath / 2.0);
    }
  }

  /** The analysis does not depend on the direction a line is flown in. */
  lemma DirectionIrrelevant(boundary: Polygon, tracks: seq<Track>, t: nat, i: nat, res: real)
    requires |boundary| > 0 && Vertices(boundary) != {}
    requires t < |tracks| && i < |tracks[t].lines|
    ensures var back := Reverse(tracks[t].lines[i]);
            var track := tracks[t].(lines := tracks[t].lines[i := back]);
            Assess(boundary, tracks[t := track], res) == Assess(boundary, tracks, res)
  {
    var line := tracks[t].lines[i];
    forall p, r ensures LineNear(p, Reverse(line), r) <==> LineNear(p, line, r) {
      LineReversed(p, line, r);
    }
    LineReplaced(boundary, tracks, t, i, Reverse(line), res);
  }

  /** Nor on extra samples along a segment already flown. */
  lemma ExtraVertexIrrelevant(boundary: Polygon, tracks: seq<Track>, t: nat, i: nat, k: nat, u: real, res: real)
    requires |boundary| > 0 && Vertices(boundary) != {}
    requires t < |tracks| && i < |tracks[t].lines| && 1 <= k < |tracks[t].lines[i]| && 0.0 <= u <= 1.0
    ensures var line := tracks[t].lines[i];
            var longer := WithVertex(line, k, Along(line[k - 1], line[k], u));
            var track := tracks[t].(lines := tracks[t].lines[i := longer]);
            Assess(boundary, tracks[t := track], res) == Assess(boundary, tracks, res)
  {
    var line := tracks[t].lines[i];
    var v := Along(line[k - 1], line[k], u);
    forall p, r ensures LineNear(p, WithVertex(line, k, v), r) <==> LineNear(p, line, r) {
      VertexInserted(p, line, k, u, v, r);
    }
    LineReplaced(boundary, tracks, t, i, WithVertex(line, k, v), res);
  }
}
