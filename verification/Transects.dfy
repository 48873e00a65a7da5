/** Generation of parallel survey lines, and what flying them exactly covers. */
module Transects {
  import opened Euclid
  import opened Options
  import opened Rings
  import opened Coverage
  import opened CoverageLaws

  datatype PlanError = LineSpacingInvalid | NoTransects

  /** Headings across the page give horizontal lines, the others vertical ones. */
  predicate Horizontal(heading: real) {
    45.0 <= heading < 135.0 || 225.0 <= heading < 315.0
  }

  /** The point at u along the lines and v across them. */
  function At(horizontal: bool, u: real, v: real): Point {
    if horizontal then Point(u, v) else Point(v, u)
  }

  /** The range a box spans along the lines. */
  function AlongMin(horizontal: bool, b: Box): real { if horizontal then b.minX else b.minY }
  function AlongMax(horizontal: bool, b: Box): real { if horizontal then b.maxX else b.maxY }

  /** The range a box spans across the lines. */
  function AcrossMin(horizontal: bool, b: Box): real { if horizontal then b.minY else b.minX }
  function AcrossMax(horizontal: bool, b: Box): real { if horizontal then b.maxY else b.maxX }

  /** Where line k lies: half a spacing in from the edge, then one spacing apart. */
  function Offset(low: real, spacing: real, k: int): real {
    low + spacing / 2.0 + k as real * spacing
  }

  function LineAt(horizontal: bool, b: Box, v: real): Line {
    [At(horizontal, AlongMin(horizontal, b), v), At(horizontal, AlongMax(horizontal, b), v)]
  }

  function Lines(horizontal: bool, b: Box, spacing: real, n: nat): seq<Line> {
    seq(n, k requires 0 <= k < n =>
      LineAt(horizontal, b, Offset(AcrossMin(horizontal, b), spacing, k)))
  }

  /** n lines fill the box: the next one would fall on or past the far edge, the last does not. */
  ghost predicate Fills(low: real, high: real, spacing: real, n: nat) {
    && Offset(low, spacing, n) >= high
    && (n > 0 ==> Offset(low, spacing, n - 1) < high)
  }

  lemma OffsetStep(low: real, spacing: real, k: int)
    ensures Offset(low, spacing, k + 1) == Offset(low, spacing, k) + spacing
    ensures Offset(low, spacing, 0) == low + spacing / 2.0
  {
    assert (k + 1) as real * spacing == k as real * spacing + spacing;
  }

  lemma OffsetOrder(low: real, spacing: real, j: int, k: int)
    requires spacing > 0.0 && j <= k
    ensures Offset(low, spacing, j) <= Offset(low, spacing, k)
  {
    Scale(spacing, j as real, k as real);
  }

  lemma FillsOnce(low: real, high: real, spacing: real, m: nat, n: nat)
    requires spacing > 0.0 && Fills(low, high, spacing, m) && Fills(low, high, spacing, n)
    ensures m == n
  {
    if m < n {
      OffsetOrder(low, spacing, m, n - 1);
    } else if n < m {
      OffsetOrder(low, spacing, n, m - 1);
    }
  }

  /** The distance left to the far edge, in spacings, falls by exactly one. */
  lemma SpacingsLeft(high: real, v: real, spacing: real)
    requires spacing > 0.0
    ensures (high - (v + spacing)) / spacing == (high - v) / spacing - 1.0
  {
    var q := (high - v) / spacing;
    Quotient(high - v, spacing);
    QuotientOf(q - 1.0, spacing, high - (v + spacing));
  }

  /** What generating lines must answer, errors included. */
  ghost predicate IsGenerated(polygon: Polygon, heading: real, spacing: real, r: Result<seq<Line>, PlanError>)
    requires |polygon| > 0 && Vertices(polygon) != {}
  {
    var b, h := Bounds(polygon), Horizontal(heading);
    && (r == Err(LineSpacingInvalid) <==> spacing > Max(b.maxX - b.minX, b.maxY - b.minY))
    && (r != Err(LineSpacingInvalid) ==>
          exists n :: Fills(AcrossMin(h, b), AcrossMax(h, b), spacing, n)
                      && r == if n == 0 then Err(NoTransects) else Ok(Lines(h, b, spacing, n)))
  }

  method Generate(polygon: Polygon, heading: real, spacing: real)
    returns (r: Result<seq<Line>, PlanError>)
    requires |polygon| > 0 && Vertices(polygon) != {} && spacing > 0.0
    ensures IsGenerated(polygon, heading, spacing, r)
  {
    var b := PolygonBounds(polygon);
    if spacing > Max(b.maxX - b.minX, b.maxY - b.minY) {
      return Err(LineSpacingInvalid);
    }
    var horizontal := Horizontal(heading);
    var low, high := AcrossMin(horizontal, b), AcrossMax(horizontal, b);
    var lines: seq<Line> := [];
    var v := low + spacing / 2.0;
    OffsetStep(low, spacing, 0);
    while v < high
      invariant v == Offset(low, spacing, |lines|)
      invariant lines == Lines(horizontal, b, spacing, |lines|)
      invariant |lines| > 0 ==> Offset(low, spacing, |lines| - 1) < high
      decreases (high - v) / spacing
    {
      SpacingsLeft(high, v, spacing);
      QuotientSign(high - v, spacing);
      OffsetStep(low, spacing, |lines|);
      lines := lines + [LineAt(horizontal, b, v)];
      v := v + spacing;
    }
    assert Fills(low, high, spacing, |lines|);
    if |lines| == 0 {
      return Err(NoTransects);
    }
    return Ok(lines);
  }

  // ----- flying the lines exactly

  /** p is within the box, given by its coordinates along and across the lines. */
  ghost predicate InStrip(horizontal: bool, b: Box, u: real, v: real) {
    && AlongMin(horizontal, b) <= u <= AlongMax(horizontal, b)
    && AcrossMin(horizontal, b) <= v <= AcrossMax(horizontal, b)
  }

  lemma LineWithin(horizontal: bool, b: Box, u: real, v: real, w: real, r: real)
    requires AlongMin(horizontal, b) <= u <= AlongMax(horizontal, b)
    requires -r <= v - w <= r
    ensures LineNear(At(horizontal, u, v), LineAt(horizontal, b, w), r)
  {
    hide Within, Dist2, NearSegment, Along, Project;
    hide Mix;
    var low, high := AlongMin(horizontal, b), AlongMax(horizontal, b);
    var line, p, q := LineAt(horizontal, b, w), At(horizontal, u, v), At(horizontal, u, w);
    var t := FractionAlong(low, high, u);
    OnLine(horizontal, b, low, high, u, w, t);
    AcrossOnly(horizontal, u, v, w, r);
    NearBecause(p, line[0], line[1], r, t, q);
    assert NearSegment(p, line[1 - 1], line[1], r);
  }

  lemma FractionAlong(low: real, high: real, u: real) returns (t: real)
    requires low <= u <= high
    ensures 0.0 <= t <= 1.0 && Mix(low, high, t) == u
  {
    t := 0.0;
    if low < high {
      UnitQuotient(u - low, high - low);
      Quotient(u - low, high - low);
      t := (u - low) / (high - low);
    }
  }

  lemma OnLine(horizontal: bool, b: Box, low: real, high: real, u: real, w: real, t: real)
    requires low == AlongMin(horizontal, b) && high == AlongMax(horizontal, b)
    requires Mix(low, high, t) == u
    ensures var line := LineAt(horizontal, b, w);
            At(horizontal, u, w) == Along(line[0], line[1], t)
  {
    hide Mix;
    Flat(w, t);
  }

  lemma Flat(w: real, t: real)
    ensures Mix(w, w, t) == w
  {
    assert t * (w - w) == 0.0;
  }

  lemma AcrossOnly(horizontal: bool, u: real, v: real, w: real, r: real)
    requires -r <= v - w <= r
    ensures Within(At(horizontal, u, v), At(horizontal, u, w), r)
  {
    var d := v - w;
    SquareOrder(d, r);
    SquareOrder(-d, r);
    assert (-d) * (-d) == d * d;
    assert (u - u) * (u - u) == 0.0;
    assert Dist2(At(horizontal, u, v), At(horizontal, u, w)) == d * d;
  }

  lemma LineReach(horizontal: bool, b: Box, u: real, v: real, w: real, r: real)
    requires LineNear(At(horizontal, u, v), LineAt(horizontal, b, w), r)
    ensures -r <= v - w <= r
  {
    var line, p := LineAt(horizontal, b, w), At(horizontal, u, v);
    hide Within, Dist2, NearSegment, Project;
    var t, q := NearPoint(p, line[0], line[1], r);
    LevelLine(horizontal, b, w, t);
    WithinAxes(p, q, r);
  }

  lemma LevelLine(horizontal: bool, b: Box, w: real, t: real)
    ensures var line := LineAt(horizontal, b, w);
            var q := Along(line[0], line[1], t);
            (if horizontal then q.y else q.x) == w
  {
    hide Mix;
    Flat(w, t);
  }

  /** Between the outer edges, some line is within half a spacing, or the last line is behind. */
  lemma NearestLine(low: real, high: real, spacing: real, n: nat, v: real) returns (k: nat)
    requires spacing > 0.0 && n > 0 && Fills(low, high, spacing, n) && low <= v <= high
    ensures k < n
    ensures var gap := v - Offset(low, spacing, k);
            -spacing / 2.0 <= gap && (gap <= spacing / 2.0 || k == n - 1)
  {
    k := 0;
    OffsetStep(low, spacing, 0);
    while k + 1 < n && v - Offset(low, spacing, k) > spacing / 2.0
      invariant k < n && -spacing / 2.0 <= v - Offset(low, spacing, k)
      decreases n - k
    {
      OffsetStep(low, spacing, k);
      k := k + 1;
    }
  }

  /** The strip past the last line. */
  function Tail(low: real, high: real, spacing: real, n: nat): real {
    high - Offset(low, spacing, n - 1)
  }

  ghost predicate CoversBox(track: Track, horizontal: bool, b: Box) {
    forall u, v :: InStrip(horizontal, b, u, v) ==> Covers(track, At(horizontal, u, v))
  }

  lemma CoversStrip(track: Track, horizontal: bool, b: Box, spacing: real, n: nat, u: real, v: real)
    requires spacing > 0.0 && n > 0 && track.lines == Lines(horizontal, b, spacing, n)
    requires Fills(AcrossMin(horizontal, b), AcrossMax(horizontal, b), spacing, n)
    requires track.swath >= spacing
    requires track.swath / 2.0 >= Tail(AcrossMin(horizontal, b), AcrossMax(horizontal, b), spacing, n)
    requires InStrip(horizontal, b, u, v)
    ensures Covers(track, At(horizontal, u, v))
  {
    var low, high := AcrossMin(horizontal, b), AcrossMax(horizontal, b);
    var k := NearestLine(low, high, spacing, n, v);
    LineWithin(horizontal, b, u, v, Offset(low, spacing, k), track.swath / 2.0);
    assert track.lines[k] == LineAt(horizontal, b, Offset(low, spacing, k));
  }

  /** Flown exactly, the lines cover the whole box if and only if half the swath reaches half a
      spacing and the far edge. */
  lemma BoxCoverage(track: Track, horizontal: bool, b: Box, spacing: real, n: nat)
    requires spacing > 0.0 && n > 0 && track.lines == Lines(horizontal, b, spacing, n)
    requires b.minX <= b.maxX && b.minY <= b.maxY
    requires Fills(AcrossMin(horizontal, b), AcrossMax(horizontal, b), spacing, n)
    ensures CoversBox(track, horizontal, b) <==>
              && track.swath >= spacing
              && track.swath / 2.0 >= Tail(AcrossMin(horizontal, b), AcrossMax(horizontal, b), spacing, n)
  {
    var low, high := AcrossMin(horizontal, b), AcrossMax(horizontal, b);
    if track.swath >= spacing && track.swath / 2.0 >= Tail(low, high, spacing, n) {
      forall u, v | InStrip(horizontal, b, u, v) ensures Covers(track, At(horizontal, u, v)) {
        CoversStrip(track, horizontal, b, spacing, n, u, v);
      }
    }
    if CoversBox(track, horizontal, b) {
      var u := AlongMin(horizontal, b);
      assert InStrip(horizontal, b, u, low) && InStrip(horizontal, b, u, high);
      var i := CoveringLine(track, horizontal, b, spacing, n, u, low);
      var j := CoveringLine(track, horizontal, b, spacing, n, u, high);
      OffsetStep(low, spacing, 0);
      OffsetOrder(low, spacing, 0, i);
      OffsetOrder(low, spacing, j, n - 1);
    }
  }

  lemma CoveringLine(track: Track, horizontal: bool, b: Box, spacing: real, n: nat, u: real, v: real)
    returns (k: nat)
    requires track.lines == Lines(horizontal, b, spacing, n) && Covers(track, At(horizontal, u, v))
    ensures k < n
    ensures var gap := v - Offset(AcrossMin(horizontal, b), spacing, k);
            -track.swath / 2.0 <= gap <= track.swath / 2.0
  {
    k :| 0 <= k < |track.lines| && LineNear(At(horizontal, u, v), track.lines[k], track.swath / 2.0);
    LineReach(horizontal, b, u, v, Offset(AcrossMin(horizontal, b), spacing, k), track.swath / 2.0);
  }

  /** The strip past the last line is at most a spacing wide; for a span of q spacings and a
      remainder it is the remainder less half a spacing, or half a spacing more. */
  lemma TailWidth(low: real, high: real, spacing: real, n: nat, q: nat, rest: real)
    requires spacing > 0.0 && n > 0 && Fills(low, high, spacing, n)
    requires high - low == q as real * spacing + rest && 0.0 <= rest < spacing
    ensures Tail(low, high, spacing, n) <= spacing
    ensures Tail(low, high, spacing, n)
         == if rest > spacing / 2.0 then rest - spacing / 2.0 else rest + spacing / 2.0
  {
    OffsetStep(low, spacing, n - 1);
    var m := if rest > spacing / 2.0 then q + 1 else q;
    OffsetStep(low, spacing, q);
    OffsetStep(low, spacing, q - 1);
    if m == 0 {
      OffsetOrder(low, spacing, 0, n - 1);
      OffsetStep(low, spacing, 0);
      assert false;
    }
    FillsOnce(low, high, spacing, m, n);
  }

  // ----- from plan to coverage

  /** One of the tracks flies exactly the generated lines, its swath reaching half a spacing and
      the far edge: every analysis that succeeds, at any resolution, reports full coverage. */
  lemma PlanCovers(polygon: Polygon, heading: real, spacing: real, n: nat,
                   tracks: seq<Track>, t: nat, res: real, r: CoverageResult)
    requires |polygon| > 0 && Vertices(polygon) != {} && spacing > 0.0 && n > 0 && t < |tracks|
    requires var b, h := Bounds(polygon), Horizontal(heading);
             && Fills(AcrossMin(h, b), AcrossMax(h, b), spacing, n)
             && tracks[t].lines == Lines(h, b, spacing, n)
             && tracks[t].swath >= spacing
             && tracks[t].swath / 2.0 >= Tail(AcrossMin(h, b), AcrossMax(h, b), spacing, n)
    requires Assess(polygon, tracks, res) == Ok(r)
    ensures r.coverageRatio == 1.0 && r.gapRatio == 0.0 && r.filteredFragments == 0
  {
    var b, h := Bounds(polygon), Horizontal(heading);
    forall c | c in Inside(polygon, res)
      ensures Passes(Centre(b, res, c), tracks) >= 1
    {
      var p := Centre(b, res, c);
      ContainsInBounds(polygon, p);
      var u, v := if h then p.x else p.y, if h then p.y else p.x;
      CoversStrip(tracks[t], h, b, spacing, n, u, v);
      CoveredOnce(p, tracks, t);
    }
    assert Gaps(polygon, tracks, res) == {};
    Ranges(polygon, tracks, res, r);
  }

  lemma CoveredOnce(p: Point, tracks: seq<Track>, t: nat)
    requires t < |tracks| && Covers(tracks[t], p)
    ensures Passes(p, tracks) >= 1
  {
    var rest := TakeOut(tracks, t);
    PassesInserted(p, rest, t, tracks[t]);
  }

  /** A swath of two spacings always suffices. */
  lemma TwoSpacingsSuffice(polygon: Polygon, heading: real, spacing: real, n: nat,
                           tracks: seq<Track>, t: nat, res: real, r: CoverageResult)
    requires |polygon| > 0 && Vertices(polygon) != {} && spacing > 0.0 && n > 0 && t < |tracks|
    requires var b, h := Bounds(polygon), Horizontal(heading);
             && Fills(AcrossMin(h, b), AcrossMax(h, b), spacing, n)
             && tracks[t].lines == Lines(h, b, spacing, n)
    requires tracks[t].swath >= 2.0 * spacing
    requires Assess(polygon, tracks, res) == Ok(r)
    ensures r.coverageRatio == 1.0 && r.gapRatio == 0.0 && r.filteredFragments == 0
  {
    var b, h := Bounds(polygon), Horizontal(heading);
    TailAtMost(AcrossMin(h, b), AcrossMax(h, b), spacing, n);
    hide Assess, Fills, Tail, Bounds, Vertices, Lines;
    PlanCovers(polygon, heading, spacing, n, tracks, t, res, r);
  }

  lemma TailAtMost(low: real, high: real, spacing: real, n: nat)
    requires n > 0 && Fills(low, high, spacing, n)
    ensures Tail(low, high, spacing, n) <= spacing
  {
    OffsetStep(low, spacing, n - 1);
  }

  /** A swath of one spacing suffices when the span is a whole number of spacings, or leaves more
      than half of one. */
  lemma OneSpacingSuffices(polygon: Polygon, heading: real, spacing: real, n: nat, q: nat, rest: real,
                           tracks: seq<Track>, t: nat, res: real, r: CoverageResult)
    requires |polygon| > 0 && Vertices(polygon) != {} && spacing > 0.0 && n > 0 && t < |tracks|
    requires var b, h := Bounds(polygon), Horizontal(heading);
             && Fills(AcrossMin(h, b), AcrossMax(h, b), spacing, n)
             && tracks[t].lines == Lines(h, b, spacing, n)
             && AcrossMax(h, b) - AcrossMin(h, b) == q as real * spacing + rest
    requires rest == 0.0 || spacing / 2.0 < rest < spacing
    requires tracks[t].swath >= spacing
    requires Assess(polygon, tracks, res) == Ok(r)
    ensures r.coverageRatio == 1.0 && r.gapRatio == 0.0 && r.filteredFragments == 0
  {
    var b, h := Bounds(polygon), Horizontal(heading);
    TailWidth(AcrossMin(h, b), AcrossMax(h, b), spacing, n, q, rest);
    hide Assess, Fills, Tail, Bounds, Vertices, Lines;
    PlanCovers(polygon, heading, spacing, n, tracks, t, res, r);
  }

  /** At box level that condition is exact: a swath of one spacing leaves no uncovered strip if
      and only if the span is a whole number of spacings or leaves more than half of one. */
  lemma OneSpacingExactly(track: Track, horizontal: bool, b: Box, spacing: real, n: nat, q: nat, rest: real)
    requires spacing > 0.0 && n > 0 && track.lines == Lines(horizontal, b, spacing, n)
    requires b.minX <= b.maxX && b.minY <= b.maxY
    requires Fills(AcrossMin(horizontal, b), AcrossMax(horizontal, b), spacing, n)
    requires AcrossMax(horizontal, b) - AcrossMin(horizontal, b) == q as real * spacing + rest
    requires 0.0 <= rest < spacing && track.swath == spacing
    ensures CoversBox(track, horizontal, b) <==> rest == 0.0 || rest > spacing / 2.0
  {
    TailWidth(AcrossMin(horizontal, b), AcrossMax(horizontal, b), spacing, n, q, rest);
    BoxCoverage(track, horizontal, b, spacing, n);
  }

  function Across(horizontal: bool, p: Point): real { if horizontal then p.y else p.x }

  /** A point of the box is covered exactly when it lies no further than half the swath past the last
      line. */
  lemma CoveredIff(track: Track, horizontal: bool, b: Box, spacing: real, n: nat, p: Point)
    requires spacing > 0.0 && n > 0 && track.lines == Lines(horizontal, b, spacing, n) && track.swath >= spacing
    requires Fills(AcrossMin(horizontal, b), AcrossMax(horizontal, b), spacing, n)
    requires b.minX <= p.x <= b.maxX && b.minY <= p.y <= b.maxY
    ensures Covers(track, p)
       <==> Across(horizontal, p) <= Offset(AcrossMin(horizontal, b), spacing, n - 1) + track.swath / 2.0
  {
    hide Covers, LineNear;
    var low, high := AcrossMin(horizontal, b), AcrossMax(horizontal, b);
    var u, v := Across(!horizontal, p), Across(horizontal, p);
    assert p == At(horizontal, u, v);
    if v <= Offset(low, spacing, n - 1) + track.swath / 2.0 {
      var k := NearestLine(low, high, spacing, n, v);
      LineWithin(horizontal, b, u, v, Offset(low, spacing, k), track.swath / 2.0);
      CoversByLine(track, k, p);
    }
    if Covers(track, p) {
      var k := CoveringLine(track, horizontal, b, spacing, n, u, v);
      OffsetOrder(low, spacing, k, n - 1);
    }
  }

  lemma CoversByLine(track: Track, k: nat, p: Point)
    requires k < |track.lines| && LineNear(p, track.lines[k], track.swath / 2.0)
    ensures Covers(track, p)
  {
  }

  /** In the analysis itself: flown alone with a swath of at least a spacing, the lines leave no gap
      if and only if no sampled centre lies further than half the swath past the last line. */
  lemma GridCoverageIff(polygon: Polygon, heading: real, spacing: real, n: nat, track: Track, res: real, r: CoverageResult)
    requires |polygon| > 0 && Vertices(polygon) != {} && spacing > 0.0 && n > 0
    requires var b, h := Bounds(polygon), Horizontal(heading);
             && Fills(AcrossMin(h, b), AcrossMax(h, b), spacing, n)
             && track.lines == Lines(h, b, spacing, n) && track.swath >= spacing
    requires Assess(polygon, [track], res) == Ok(r)
    ensures var b, h := Bounds(polygon), Horizontal(heading);
            r.gapRatio == 0.0 <==>
              forall c :: c in Inside(polygon, res) ==>
                Across(h, Centre(b, res, c)) <= Offset(AcrossMin(h, b), spacing, n - 1) + track.swath / 2.0
  {
    var b, h := Bounds(polygon), Horizontal(heading);
    Ranges(polygon, [track], res, r);
    assert res > 0.0;
    hide Assess, Fills, Lines, Covers, Bounds, Vertices, Offset, Contains;
    forall c | c in Inside(polygon, res)
      ensures c in Gaps(polygon, [track], res)
         <==> !(Across(h, Centre(b, res, c)) <= Offset(AcrossMin(h, b), spacing, n - 1) + track.swath / 2.0)
    {
      var p := Centre(b, res, c);
      ContainsInBounds(polygon, p);
      CoveredIff(track, h, b, spacing, n, p);
      assert [track][..0] == [];
      assert Passes(p, [track]) == if Covers(track, p) then 1 else 0;
    }
  }

  // ----- from generation to analysis

  lemma GeneratedLines(polygon: Polygon, heading: real, spacing: real, lines: seq<Line>) returns (n: nat)
    requires |polygon| > 0 && Vertices(polygon) != {} && IsGenerated(polygon, heading, spacing, Ok(lines))
    ensures n > 0
    ensures var b, h := Bounds(polygon), Horizontal(heading);
            Fills(AcrossMin(h, b), AcrossMax(h, b), spacing, n) && lines == Lines(h, b, spacing, n)
  {
    var b, h := Bounds(polygon), Horizontal(heading);
    var r: Result<seq<Line>, PlanError> := Ok(lines);
    hide Fills, Lines, Bounds, Vertices;
    n :| Fills(AcrossMin(h, b), AcrossMax(h, b), spacing, n)
         && r == if n == 0 then Err(NoTransects) else Ok(Lines(h, b, spacing, n));
  }

  /** From polygon to full coverage: if generation answers lines and one of the tracks flies exactly
      those, with a swath of two spacings, or of one when the span across is a whole number of
      spacings or leaves more than half of one, then every analysis that succeeds, at any
      resolution, reports full coverage and no gap. */
  lemma GeneratedPlanCovers(polygon: Polygon, heading: real, spacing: real, lines: seq<Line>, q: nat, rest: real,
                            tracks: seq<Track>, t: nat, res: real, r: CoverageResult)
    requires |polygon| > 0 && Vertices(polygon) != {} && spacing > 0.0
    requires IsGenerated(polygon, heading, spacing, Ok(lines))
    requires t < |tracks| && tracks[t].lines == lines
    requires var b, h := Bounds(polygon), Horizontal(heading);
             AcrossMax(h, b) - AcrossMin(h, b) == q as real * spacing + rest && 0.0 <= rest < spacing
    requires tracks[t].swath >= if rest == 0.0 || rest > spacing / 2.0 then spacing else 2.0 * spacing
    requires Assess(polygon, tracks, res) == Ok(r)
    ensures r.coverageRatio == 1.0 && r.gapRatio == 0.0 && r.filteredFragments == 0
  {
    hide Assess, Bounds, Vertices, Fills, Lines, IsGenerated;
    var n := GeneratedLines(polygon, heading, spacing, lines);
    if rest == 0.0 || rest > spacing / 2.0 {
      OneSpacingSuffices(polygon, heading, spacing, n, q, rest, tracks, t, res, r);
    } else {
      TwoSpacingsSuffice(polygon, heading, spacing, n, tracks, t, res, r);
    }
  }

  // ----- headings, and what is answered

  lemma FillsSomewhere(low: real, high: real, spacing: real) returns (n: nat)
    requires spacing > 0.0
    ensures Fills(low, high, spacing, n)
  {
    n := 0;
    var v := low + spacing / 2.0;
    OffsetStep(low, spacing, 0);
    while v < high
      invariant v == Offset(low, spacing, n)
      invariant n > 0 ==> Offset(low, spacing, n - 1) < high
      decreases (high - v) / spacing
    {
      SpacingsLeft(high, v, spacing);
      QuotientSign(high - v, spacing);
      OffsetStep(low, spacing, n);
      n, v := n + 1, v + spacing;
    }
  }

  /** There is one answer: too wide a spacing is one above both extents of the box, nothing fits when
      half a spacing reaches across it, and otherwise lines are answered. */
  lemma GenerationOutcome(polygon: Polygon, heading: real, spacing: real, r: Result<seq<Line>, PlanError>)
    requires |polygon| > 0 && Vertices(polygon) != {} && spacing > 0.0
    requires IsGenerated(polygon, heading, spacing, r)
    ensures var b, h := Bounds(polygon), Horizontal(heading);
            var wide := b.maxX - b.minX < spacing && b.maxY - b.minY < spacing;
            var across := AcrossMax(h, b) - AcrossMin(h, b);
            && (r == Err(LineSpacingInvalid) <==> wide)
            && (r == Err(NoTransects) <==> !wide && across <= spacing / 2.0)
            && (r.Ok? <==> !wide && across > spacing / 2.0)
    ensures forall q :: IsGenerated(polygon, heading, spacing, q) ==> q == r
  {
    hide Bounds, Vertices, Lines;
    var b, h := Bounds(polygon), Horizontal(heading);
    var low, high := AcrossMin(h, b), AcrossMax(h, b);
    OffsetStep(low, spacing, 0);
    forall n: nat | Fills(low, high, spacing, n) ensures n == 0 <==> high - low <= spacing / 2.0 {
      if n > 0 { OffsetOrder(low, spacing, 0, n - 1); }
    }
    forall m: nat, n: nat | Fills(low, high, spacing, m) && Fills(low, high, spacing, n) ensures m == n {
      FillsOnce(low, high, spacing, m, n);
    }
  }

  /** Every line runs level from one side of the box to the other. */
  predicate Level(b: Box, lines: seq<Line>) {
    forall k :: 0 <= k < |lines| ==>
      && |lines[k]| == 2 && lines[k][0].y == lines[k][1].y && b.minY < lines[k][0].y < b.maxY
      && lines[k][0].x == b.minX && lines[k][1].x == b.maxX
  }

  predicate Upright(b: Box, lines: seq<Line>) {
    forall k :: 0 <= k < |lines| ==>
      && |lines[k]| == 2 && lines[k][0].x == lines[k][1].x && b.minX < lines[k][0].x < b.maxX
      && lines[k][0].y == b.minY && lines[k][1].y == b.maxY
  }

  lemma LinesRun(b: Box, horizontal: bool, spacing: real, n: nat)
    requires spacing > 0.0 && Fills(AcrossMin(horizontal, b), AcrossMax(horizontal, b), spacing, n)
    ensures if horizontal then Level(b, Lines(horizontal, b, spacing, n)) else Upright(b, Lines(horizontal, b, spacing, n))
  {
    var low := AcrossMin(horizontal, b);
    OffsetStep(low, spacing, 0);
    forall k | 0 <= k < n ensures low < Offset(low, spacing, k) < AcrossMax(horizontal, b) {
      OffsetOrder(low, spacing, 0, k);
      OffsetOrder(low, spacing, k, n - 1);
    }
  }

  /** From 45 degrees up to 135 and from 225 up to 315 the lines run level across the box, at all other
      headings upright. */
  lemma LinesByHeading(polygon: Polygon, heading: real, spacing: real, lines: seq<Line>)
    requires |polygon| > 0 && Vertices(polygon) != {} && spacing > 0.0
    requires IsGenerated(polygon, heading, spacing, Ok(lines))
    ensures 45.0 <= heading < 135.0 || 225.0 <= heading < 315.0 ==> Level(Bounds(polygon), lines)
    ensures heading < 45.0 || 135.0 <= heading < 225.0 || heading >= 315.0 ==> Upright(Bounds(polygon), lines)
  {
    var n := GeneratedLines(polygon, heading, spacing, lines);
    hide Bounds, Vertices, IsGenerated, Lines, Fills;
    LinesRun(Bounds(polygon), Horizontal(heading), spacing, n);
  }

  /** Flying the other way generates the same lines. */
  lemma OppositeHeading(polygon: Polygon, heading: real, spacing: real, r: Result<seq<Line>, PlanError>)
    requires |polygon| > 0 && Vertices(polygon) != {} && 0.0 <= heading < 180.0
    ensures IsGenerated(polygon, heading, spacing, r) <==> IsGenerated(polygon, heading + 180.0, spacing, r)
  {
    hide Bounds, Vertices, Lines, Fills;
    assert Horizontal(heading + 180.0) == Horizontal(heading);
  }

  /** A quarter turn generates lines of the other orientation. */
  lemma QuarterTurn(polygon: Polygon, heading: real, spacing: real, lines: seq<Line>, turned: seq<Line>)
    requires |polygon| > 0 && Vertices(polygon) != {} && spacing > 0.0 && 0.0 <= heading < 270.0
    requires IsGenerated(polygon, heading, spacing, Ok(lines)) && IsGenerated(polygon, heading + 90.0, spacing, Ok(turned))
    ensures var b := Bounds(polygon); (Level(b, lines) && Upright(b, turned)) || (Upright(b, lines) && Level(b, turned))
  {
    LinesByHeading(polygon, heading, spacing, lines);
    LinesByHeading(polygon, heading + 90.0, spacing, turned);
    hide Bounds, Vertices, IsGenerated;
  }

  /** The first line lies half a spacing in from the side, each next one a spacing further, and one
      more would not lie inside. */
  lemma LinesApart(polygon: Polygon, heading: real, spacing: real, lines: seq<Line>)
    requires |polygon| > 0 && Vertices(polygon) != {} && spacing > 0.0
    requires IsGenerated(polygon, heading, spacing, Ok(lines))
    ensures var b, h := Bounds(polygon), Horizontal(heading);
            && |lines| > 0 && (forall k :: 0 <= k < |lines| ==> |lines[k]| == 2)
            && Across(h, lines[0][0]) == AcrossMin(h, b) + spacing / 2.0
            && (forall k :: 0 < k < |lines| ==> Across(h, lines[k][0]) - Across(h, lines[k - 1][0]) == spacing)
            && Across(h, lines[|lines| - 1][0]) + spacing >= AcrossMax(h, b)
  {
    var n := GeneratedLines(polygon, heading, spacing, lines);
    hide Bounds, Vertices, IsGenerated;
    var low := AcrossMin(Horizontal(heading), Bounds(polygon));
    OffsetStep(low, spacing, n - 1);
    forall k | 0 < k < n ensures Offset(low, spacing, k) == Offset(low, spacing, k - 1) + spacing {
      OffsetStep(low, spacing, k - 1);
    }
  }
}
