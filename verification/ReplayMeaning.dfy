/** What a replay says about the lines that were flown: every frame, flag and figure in terms of the
    vertices, and when a replay fails. */
module ReplayMeaning {
  import opened Euclid
  import opened Options
  import opened Coverage
  import opened Overlap
  import opened OverlapLaws
  import opened OrderStats
  import opened Replay
  import opened ReplayLaws

  // ----- frames and vertices

  /** The number of vertices of the first l lines. */
  ghost function VerticesBefore(lines: seq<Line>, l: nat): nat
    requires l <= |lines|
  {
    if l == 0 then 0 else VerticesBefore(lines, l - 1) + |lines[l - 1]|
  }

  lemma {:induction false} SamplesBefore(lines: seq<Line>, l: nat)
    requires l <= |lines|
    ensures |Flatten(lines[..l])| == VerticesBefore(lines, l)
  {
    if l > 0 {
      SamplesBefore(lines, l - 1);
      assert lines[..l][..l - 1] == lines[..l - 1];
    }
  }

  lemma SampleCount(lines: seq<Line>)
    ensures |Flatten(lines)| == VerticesBefore(lines, |lines|)
  {
    SamplesBefore(lines, |lines|);
    assert lines[..|lines|] == lines;
  }

  lemma SampleAt(lines: seq<Line>, l: nat, i: nat)
    requires l < |lines| && i < |lines[l]|
    ensures var n := VerticesBefore(lines, l) + i;
            n < |Flatten(lines)| && Flatten(lines)[n] == Sample(lines[l][i], i == 0)
  {
    SamplesBefore(lines, l);
    FlattenPrefix(lines, l + 1);
    assert lines[..l + 1][..l] == lines[..l];
    assert Flatten(lines[..l + 1]) == Flatten(lines[..l]) + LineSamples(lines[l]);
  }

  /** A line is followed by the start of another, or by nothing. */
  lemma {:induction false} LineEnds(lines: seq<Line>, l: nat)
    requires l <= |lines|
    ensures var n := VerticesBefore(lines, l); n <= |Flatten(lines)| && (n < |Flatten(lines)| ==> Flatten(lines)[n].lineStart)
    decreases |lines| - l
  {
    SampleCount(lines);
    if l < |lines| {
      LineEnds(lines, l + 1);
      if |lines[l]| > 0 {
        SampleAt(lines, l, 0);
      }
    }
  }

  ghost predicate Answers(hypot: Hypot, lines: seq<Line>, swath: real, base: real, times: (int, int), params: Params, r: Snapshot) {
    Replayed(hypot, lines, swath, base, times.0, times.1, params) == Ok(r)
  }

  lemma AnsweredFrame(hypot: Hypot, lines: seq<Line>, swath: real, base: real, times: (int, int), params: Params, r: Snapshot, n: nat)
    requires Answers(hypot, lines, swath, base, times, params, r) && n < |Flatten(lines)|
    ensures |r.frames| == |Flatten(lines)| && params.resolution > 0.0
    ensures r.frames[n] == FrameAt(hypot, Flatten(lines), swath, base, params, n)
  {
    hide FrameAt, Touched, CellsRepeated, TooManyCells, Dropouts, TotalLength, MedianGap, Flatten, MaxAccuracy, Anomalies;
  }

  /** The frames are the vertices of all lines, in the order they were flown. */
  lemma FramesFollowLines(hypot: Hypot, lines: seq<Line>, swath: real, base: real, times: (int, int), params: Params,
                          r: Snapshot, l: nat, i: nat)
    requires Answers(hypot, lines, swath, base, times, params, r) && l < |lines| && i < |lines[l]|
    ensures |r.frames| == VerticesBefore(lines, |lines|)
    ensures var n := VerticesBefore(lines, l) + i;
            n < |r.frames| && r.frames[n].index == n && Point(r.frames[n].x, r.frames[n].y) == lines[l][i]
  {
    hide Answers, Flatten, FlagsAt, AccuracyAt, Travelled;
    var n := VerticesBefore(lines, l) + i;
    SampleCount(lines);
    SampleAt(lines, l, i);
    AnsweredFrame(hypot, lines, swath, base, times, params, r, n);
  }

  predicate Listed(f: Flag, g: Flag) {
    (f == Dropout && g != Dropout) || (f == Accuracy && g == Repeated)
  }

  /** Flags are listed once each, dropouts first and overlaps last. */
  lemma FlagsInOrder(flags: set<Flag>)
    ensures forall j, k :: 0 <= j < k < |FlagList(flags)| ==> Listed(FlagList(flags)[j], FlagList(flags)[k])
    ensures forall f :: f in FlagList(flags) <==> f in flags
  {
    forall f ensures f in FlagList(flags) <==> f in flags {
      ListedFlags(flags, f);
    }
  }

  // ----- distances and dropouts

  /** The distances between consecutive vertices of one line. */
  ghost function Steps(hypot: Hypot, line: Line): seq<real> {
    if |line| < 2 then [] else Steps(hypot, line[..|line| - 1]) + [hypot(line[|line| - 2], line[|line| - 1])]
  }

  /** The distances flown within lines, the jumps between lines left out. */
  ghost function AllSteps(hypot: Hypot, lines: seq<Line>): seq<real> {
    if |lines| == 0 then [] else AllSteps(hypot, lines[..|lines| - 1]) + Steps(hypot, lines[|lines| - 1])
  }

  lemma {:induction false} SpacingsPrefix(hypot: Hypot, s: seq<Sample>, t: seq<Sample>, n: nat)
    requires n <= |s|
    ensures Spacings(hypot, s + t, n) == Spacings(hypot, s, n)
  {
    if n >= 2 {
      SpacingsPrefix(hypot, s, t, n - 1);
    }
  }

  lemma {:induction false} SpacingsAppend(hypot: Hypot, s: seq<Sample>, line: Line, n: nat)
    requires n <= |line|
    ensures Spacings(hypot, s + LineSamples(line), |s| + n) == Spacings(hypot, s, |s|) + Steps(hypot, line[..n])
  {
    if n == 0 {
      SpacingsPrefix(hypot, s, LineSamples(line), |s|);
      assert Spacings(hypot, s, |s|) + [] == Spacings(hypot, s, |s|);
    } else {
      SpacingsAppend(hypot, s, line, n - 1);
      assert line[..n][..n - 1] == line[..n - 1];
      var all := s + LineSamples(line);
      if n == 1 {
        assert Spacings(hypot, s, |s|) + [] == Spacings(hypot, s, |s|);
      } else {
        assert GapAt(hypot, all, |s| + n - 1) == hypot(line[n - 2], line[n - 1]);
        assert Spacings(hypot, s, |s|) + Steps(hypot, line[..n - 1]) + [hypot(line[n - 2], line[n - 1])]
            == Spacings(hypot, s, |s|) + Steps(hypot, line[..n]);
      }
    }
  }

  /** The median that dropouts are measured by is that of the distances within lines. */
  lemma {:induction false} SpacingsAreSteps(hypot: Hypot, lines: seq<Line>)
    ensures Spacings(hypot, Flatten(lines), |Flatten(lines)|) == AllSteps(hypot, lines)
  {
    hide Spacings, Steps, Flatten, AllSteps, LineSamples;
    if |lines| > 0 {
      var n := |lines| - 1;
      SpacingsAreSteps(hypot, lines[..n]);
      LastLine(hypot, lines);
      SpacingsAppend(hypot, Flatten(lines[..n]), lines[n], |lines[n]|);
      assert lines[n][..|lines[n]|] == lines[n];
    } else {
      NoLines(hypot);
    }
  }

  lemma LastLine(hypot: Hypot, lines: seq<Line>)
    requires |lines| > 0
    ensures var n := |lines| - 1;
            && Flatten(lines) == Flatten(lines[..n]) + LineSamples(lines[n]) && |LineSamples(lines[n])| == |lines[n]|
            && AllSteps(hypot, lines) == AllSteps(hypot, lines[..n]) + Steps(hypot, lines[n])
  {
  }

  lemma NoLines(hypot: Hypot)
    ensures Flatten([]) == [] && AllSteps(hypot, []) == [] && Spacings(hypot, [], 0) == []
  {
  }

  function Position(f: Frame): Point { Point(f.x, f.y) }

  /** A frame carries the dropout flag exactly when the distance from the frame before it, whether or
      not a line starts there, is positive and exceeds the factor times the median of the distances
      within lines; cumulative distances differ by that distance. */
  lemma DropoutIff(hypot: Hypot, lines: seq<Line>, swath: real, base: real, times: (int, int), params: Params, r: Snapshot, i: nat)
    requires Answers(hypot, lines, swath, base, times, params, r) && 0 < i < |r.frames|
    ensures r.frames[0].cumulative == 0.0 && Dropout !in r.frames[0].flags
    ensures var step := r.frames[i].cumulative - r.frames[i - 1].cumulative;
            && step == hypot(Position(r.frames[i - 1]), Position(r.frames[i]))
            && (Dropout in r.frames[i].flags <==>
                  step > 0.0 && step > params.dropoutFactor * Median(AllSteps(hypot, lines)))
  {
    hide Flatten, AccuracyAt, FlagList, Flagged, Median, Answers, AllSteps, Spacings;
    var samples := Flatten(lines);
    Length(hypot, lines, swath, base, times, params, r);
    AnsweredFrame(hypot, lines, swath, base, times, params, r, 0);
    AnsweredFrame(hypot, lines, swath, base, times, params, r, i - 1);
    AnsweredFrame(hypot, lines, swath, base, times, params, r, i);
    SpacingsAreSteps(hypot, lines);
    ListedFlags(FlagsAt(hypot, samples, swath, base, params, 0), Dropout);
    ListedFlags(FlagsAt(hypot, samples, swath, base, params, i), Dropout);
  }

  lemma Length(hypot: Hypot, lines: seq<Line>, swath: real, base: real, times: (int, int), params: Params, r: Snapshot)
    requires Answers(hypot, lines, swath, base, times, params, r)
    ensures |r.frames| == |Flatten(lines)| >= 2
  {
    hide FrameAt, Touched, CellsRepeated, TooManyCells, Dropouts, TotalLength, MedianGap, Flatten, MaxAccuracy, Anomalies;
  }

  /** These are dropouts among the first n samples, in order. */
  ghost predicate InOrder(hypot: Hypot, samples: seq<Sample>, factor: real, median: real, n: nat, gaps: seq<DropoutGap>)
    requires n <= |samples|
  {
    && (forall k :: 0 <= k < |gaps| ==> IsGap(hypot, samples, factor, median, n, gaps[k]))
    && (forall j, k :: 0 <= j < k < |gaps| ==> gaps[j].afterIndex < gaps[k].afterIndex)
  }

  ghost predicate IsGap(hypot: Hypot, samples: seq<Sample>, factor: real, median: real, n: nat, gap: DropoutGap)
    requires n <= |samples|
  {
    var i := gap.afterIndex + 1;
    i < n && IsDropout(hypot, samples, factor, median, i) && gap == DropoutAt(hypot, samples, median, i)
  }

  lemma {:induction false} DropoutsInOrder(hypot: Hypot, samples: seq<Sample>, factor: real, median: real, n: nat)
    requires n <= |samples|
    ensures InOrder(hypot, samples, factor, median, n, Dropouts(hypot, samples, factor, median, n))
  {
    hide IsDropout, DropoutAt;
    if n > 0 {
      DropoutsInOrder(hypot, samples, factor, median, n - 1);
      var before, gaps := Dropouts(hypot, samples, factor, median, n - 1), Dropouts(hypot, samples, factor, median, n);
      if IsDropout(hypot, samples, factor, median, n - 1) {
        assert n > 1 by { FirstIsNone(hypot, samples, factor, median); }
        var gap := DropoutAt(hypot, samples, median, n - 1);
        assert gap.afterIndex == n - 2 by { Before(hypot, samples, median, n - 1); }
        assert gaps == before + [gap];
        assert IsGap(hypot, samples, factor, median, n, gap);
      } else {
        assert gaps == before;
      }
      forall k | 0 <= k < |before| ensures IsGap(hypot, samples, factor, median, n, before[k]) {
        assert IsGap(hypot, samples, factor, median, n - 1, before[k]);
      }
    }
  }

  lemma FirstIsNone(hypot: Hypot, samples: seq<Sample>, factor: real, median: real)
    requires |samples| > 0
    ensures !IsDropout(hypot, samples, factor, median, 0)
  {
  }

  lemma Before(hypot: Hypot, samples: seq<Sample>, median: real, i: nat)
    requires 0 < i < |samples|
    ensures DropoutAt(hypot, samples, median, i).afterIndex == i - 1
  {
  }

  /** The estimate is off by no more than half a median, exact halves being rounded up. */
  predicate Estimates(gap: DropoutGap, median: real) {
    var left := gap.length - Times((gap.missing + 1) as real, median);
    && (median > 0.0 ==> gap.missing >= 1 && -median / 2.0 <= left < median / 2.0)
    && (median <= 0.0 ==> gap.missing == 0)
  }

  lemma EstimateOf(length: real, median: real, factor: real, after: nat)
    requires factor >= 1.5 && length > Times(factor, median)
    ensures Estimates(DropoutGap(after, length, Missing(length, median)), median)
  {
    if median > 0.0 {
      MissingEstimate(length, median, factor);
      var q := length / median;
      var n := Round(q) as real;
      Quotient(length, median);
      var d := Product(median, 0.5 - (q - n));
      assert d == median * 0.5 - length + n * median;
      assert (Missing(length, median) + 1) as real == n;
      assert q >= 0.0 by { if q < 0.0 { var _ := Product(-q, median); var _ := Product(factor, median); } }
      assert 0.5 - (q - n) > 0.0;
    }
  }

  /** The gaps listed are those before the flagged frames, in order: each with its distance and an
      estimate of what is missing in it. */
  lemma GapsListed(hypot: Hypot, lines: seq<Line>, swath: real, base: real, times: (int, int), params: Params, r: Snapshot)
    requires Answers(hypot, lines, swath, base, times, params, r) && params.dropoutFactor >= 1.5
    ensures var gaps := r.summary.dropoutGaps;
            && r.summary.dropoutEvents == |gaps|
            && (forall j, k :: 0 <= j < k < |gaps| ==> gaps[j].afterIndex < gaps[k].afterIndex)
            && forall k :: 0 <= k < |gaps| ==>
                 && gaps[k].afterIndex + 1 < |r.frames|
                 && gaps[k].length == r.frames[gaps[k].afterIndex + 1].cumulative - r.frames[gaps[k].afterIndex].cumulative
                 && Estimates(gaps[k], Median(AllSteps(hypot, lines)))
    ensures forall i :: 0 <= i < |r.frames| ==>
              (Dropout in r.frames[i].flags <==> exists g :: g in r.summary.dropoutGaps && g.afterIndex + 1 == i)
  {
    hide Flatten, AccuracyAt, FlagList, Flagged, Median, Answers, AllSteps, Spacings, Dropouts, Missing, Times, FlagsAt, Estimates;
    var samples := Flatten(lines);
    var median := MedianGap(hypot, samples);
    Length(hypot, lines, swath, base, times, params, r);
    SpacingsAreSteps(hypot, lines);
    SummaryGaps(hypot, lines, swath, base, times, params, r);
    DropoutsInOrder(hypot, samples, params.dropoutFactor, median, |samples|);
    var gaps := r.summary.dropoutGaps;
    forall k | 0 <= k < |gaps|
      ensures gaps[k].afterIndex + 1 < |r.frames|
      ensures gaps[k].length == r.frames[gaps[k].afterIndex + 1].cumulative - r.frames[gaps[k].afterIndex].cumulative
      ensures Estimates(gaps[k], median)
    {
      assert IsGap(hypot, samples, params.dropoutFactor, median, |samples|, gaps[k]);
      var i := gaps[k].afterIndex + 1;
      AnsweredFrame(hypot, lines, swath, base, times, params, r, i);
      AnsweredFrame(hypot, lines, swath, base, times, params, r, i - 1);
      EstimateOf(gaps[k].length, median, params.dropoutFactor, gaps[k].afterIndex);
    }
    forall i | 0 <= i < |r.frames|
      ensures Dropout in r.frames[i].flags <==> exists g :: g in r.summary.dropoutGaps && g.afterIndex + 1 == i
    {
      MatchedGap(hypot, lines, swath, base, times, params, r, i);
    }
  }

  lemma MatchedGap(hypot: Hypot, lines: seq<Line>, swath: real, base: real, times: (int, int), params: Params, r: Snapshot, i: nat)
    requires Answers(hypot, lines, swath, base, times, params, r) && i < |r.frames|
    ensures Dropout in r.frames[i].flags <==> exists g :: g in r.summary.dropoutGaps && g.afterIndex + 1 == i
  {
    hide Replayed;
    DropoutFramesMatchGaps(hypot, lines, swath, base, times.0, times.1, params, r, i);
  }

  lemma SummaryGaps(hypot: Hypot, lines: seq<Line>, swath: real, base: real, times: (int, int), params: Params, r: Snapshot)
    requires Answers(hypot, lines, swath, base, times, params, r)
    ensures var samples := Flatten(lines);
            && r.summary.dropoutGaps == Dropouts(hypot, samples, params.dropoutFactor, MedianGap(hypot, samples), |samples|)
            && r.summary.dropoutEvents == |r.summary.dropoutGaps|
            && r.summary.droppedPoints == DroppedPoints(r.summary.dropoutGaps)
  {
    hide FrameAt, Touched, CellsRepeated, TooManyCells, Dropouts, TotalLength, MedianGap, Flatten, MaxAccuracy, Anomalies, DroppedPoints;
  }

  lemma {:induction false} EstimatesAddUp(gaps: seq<DropoutGap>, median: real)
    requires forall k :: 0 <= k < |gaps| ==> Estimates(gaps[k], median)
    ensures median <= 0.0 ==> DroppedPoints(gaps) == 0
    ensures median > 0.0 ==>
              var left := GapLength(gaps) - Times((DroppedPoints(gaps) + |gaps|) as real, median);
              -Times(|gaps| as real, median / 2.0) <= left <= Times(|gaps| as real, median / 2.0)
  {
    if |gaps| > 0 {
      var n := |gaps| - 1;
      EstimatesAddUp(gaps[..n], median);
      var d, m, e := (DroppedPoints(gaps[..n]) + n) as real, (gaps[n].missing + 1) as real, n as real;
      assert (DroppedPoints(gaps) + |gaps|) as real == d + m && |gaps| as real == e + 1.0;
      Distribute(d, m, median);
      Distribute(e, 1.0, median / 2.0);
      hide Times;
    } else {
      NoEvents(median);
    }
  }

  /** The dropped points estimate the length of all gaps: together with one spacing for each gap they
      account for it up to half a median for each. */
  lemma DroppedPointsEstimate(hypot: Hypot, lines: seq<Line>, swath: real, base: real, times: (int, int), params: Params, r: Snapshot)
    requires Answers(hypot, lines, swath, base, times, params, r) && params.dropoutFactor >= 1.5
    ensures var median := Median(AllSteps(hypot, lines));
            var events := r.summary.dropoutEvents;
            && (median <= 0.0 ==> r.summary.droppedPoints == 0)
            && (median > 0.0 ==>
                  var left := GapLength(r.summary.dropoutGaps) - Times((r.summary.droppedPoints + events) as real, median);
                  -Times(events as real, median / 2.0) <= left <= Times(events as real, median / 2.0))
  {
    hide Answers, Median, AllSteps, Times, Estimates, Flatten, MedianGap, Dropouts, GapLength, DroppedPoints;
    GapsListed(hypot, lines, swath, base, times, params, r);
    SummaryGaps(hypot, lines, swath, base, times, params, r);
    EstimatesAddUp(r.summary.dropoutGaps, Median(AllSteps(hypot, lines)));
  }

  // ----- accuracy

  /** d is the distance from p to the nearest point between a and b. */
  ghost predicate IsDistance(hypot: Hypot, p: Point, a: Point, b: Point, d: real) {
    && (exists t :: 0.0 <= t <= 1.0 && d == hypot(p, Along(a, b, t)))
    && (forall t :: 0.0 <= t <= 1.0 ==> d <= hypot(p, Along(a, b, t)))
  }

  lemma ProjectedDistance(hypot: Hypot, p: Point, a: Point, b: Point)
    requires IsEuclidean(hypot)
    ensures IsDistance(hypot, p, a, b, hypot(p, Project(p, a, b)))
  {
    ProjectIsNearest(p, a, b);
    hide Project, Along, Dist2;
    forall t | 0.0 <= t <= 1.0 ensures hypot(p, Project(p, a, b)) <= hypot(p, Along(a, b, t)) {
      CloserTo(hypot, p, Project(p, a, b), Along(a, b, t));
    }
  }

  lemma CloserTo(hypot: Hypot, p: Point, q: Point, a: Point)
    requires IsEuclidean(hypot) && Dist2(p, q) <= Dist2(p, a)
    ensures hypot(p, q) <= hypot(p, a)
  {
    Closer(hypot, p, q, a);
  }

  /** Between the ends of a line, the accuracy of a vertex is the base error plus its distance from the
      straight way between its neighbours; at the ends it is the base error. */
  lemma AccuracyIs(hypot: Hypot, lines: seq<Line>, swath: real, base: real, times: (int, int), params: Params,
                   r: Snapshot, l: nat, i: nat)
    requires IsEuclidean(hypot) && Answers(hypot, lines, swath, base, times, params, r) && l < |lines| && i < |lines[l]|
    ensures var n, line := VerticesBefore(lines, l) + i, lines[l];
            && n < |r.frames|
            && (i == 0 || i == |line| - 1 ==> r.frames[n].accuracy == base)
            && (0 < i < |line| - 1 ==> IsDistance(hypot, line[i], line[i - 1], line[i + 1], r.frames[n].accuracy - base))
  {
    hide Answers, Flatten, FlagsAt, Travelled, Project, IsEuclidean, IsDistance;
    var n, line := VerticesBefore(lines, l) + i, lines[l];
    SampleAt(lines, l, i);
    AnsweredFrame(hypot, lines, swath, base, times, params, r, n);
    if i == |line| - 1 {
      LineEnds(lines, l + 1);
    } else if i > 0 {
      SampleAt(lines, l, i - 1);
      SampleAt(lines, l, i + 1);
      ProjectedDistance(hypot, line[i], line[i - 1], line[i + 1]);
    }
  }

  lemma {:induction false} GreatestAccuracy(hypot: Hypot, samples: seq<Sample>, base: real, n: nat)
    requires 0 < n <= |samples| && forall i :: 0 <= i < n ==> AccuracyAt(hypot, samples, base, i) >= 0.0
    ensures forall i :: 0 <= i < n ==> AccuracyAt(hypot, samples, base, i) <= MaxAccuracy(hypot, samples, base, n)
    ensures exists i :: 0 <= i < n && AccuracyAt(hypot, samples, base, i) == MaxAccuracy(hypot, samples, base, n)
  {
    hide AccuracyAt;
    if n > 1 {
      GreatestAccuracy(hypot, samples, base, n - 1);
    } else {
      assert MaxAccuracy(hypot, samples, base, 0) == 0.0;
      assert AccuracyAt(hypot, samples, base, 0) == MaxAccuracy(hypot, samples, base, 1);
    }
  }

  // ----- the summary

  lemma TouchedIff(points: seq<Point>, c: Cell, radius: real, res: real)
    requires res > 0.0
    ensures c in Touched(points, radius, res) <==> exists i :: 0 <= i < |points| && Reaches(points[i], c, radius, res)
  {
    hide Visits, Reaches, Touched;
    TouchedMeaning(points, c, radius, res);
    VisitsMeaning(points, c, radius, res);
    var v := Visits(points, c, radius, res);
    if v != [] {
      assert v[0] in v;
    }
  }

  lemma RepeatedTouched(points: seq<Point>, radius: real, res: real, window: int)
    requires res > 0.0
    ensures CellsRepeated(points, radius, res, window) <= Touched(points, radius, res)
  {
    hide Visits, Touched, Batches;
  }

  lemma ShareOf(part: nat, whole: nat)
    requires part <= whole
    ensures 0.0 <= Share(part, whole) <= 1.0 && Times(Share(part, whole), whole as real) == part as real
  {
    if whole > 0 {
      UnitQuotient(part as real, whole as real);
      Quotient(part as real, whole as real);
    }
  }

  /** The figures of the summary: what was sent, the greatest accuracy of any frame, and the share of
      the cells reached that are reached again. */
  lemma SummaryMeans(hypot: Hypot, lines: seq<Line>, swath: real, base: real, times: (int, int), params: Params, r: Snapshot)
    requires IsEuclidean(hypot) && base >= 0.0 && Answers(hypot, lines, swath, base, times, params, r)
    ensures var s := r.summary;
            && s.sampleCount == |r.frames| == VerticesBefore(lines, |lines|)
            && s.durationMinutes * 60000000000.0 == (times.1 - times.0) as real
            && s.accuracyThreshold == params.accuracyThreshold && s.resolution == params.resolution
            && (forall i :: 0 <= i < |r.frames| ==> r.frames[i].accuracy <= s.maxAccuracy)
            && (exists i :: 0 <= i < |r.frames| && r.frames[i].accuracy == s.maxAccuracy)
            && params.resolution > 0.0
            && s.coveredCells == |Touched(Points(Flatten(lines)), swath / 2.0, params.resolution)|
            && s.overlapCells == |CellsRepeated(Points(Flatten(lines)), swath / 2.0, params.resolution, params.window)|
            && 0.0 <= s.overlapRatio <= 1.0 && Times(s.overlapRatio, s.coveredCells as real) == s.overlapCells as real
  {
    hide Flatten, FlagsAt, Travelled, Touched, CellsRepeated, AccuracyAt, IsEuclidean, Dropouts, TotalLength, MedianGap,
         MaxAccuracy, Anomalies, TooManyCells, Times, Share, FlagList, DroppedPoints;
    var samples := Flatten(lines);
    SampleCount(lines);
    Length(hypot, lines, swath, base, times, params, r);
    forall i | 0 <= i < |samples| ensures AccuracyAt(hypot, samples, base, i) >= 0.0 {
      AccuracyNonNegative(hypot, samples, base, i);
    }
    GreatestAccuracy(hypot, samples, base, |samples|);
    forall i | 0 <= i < |r.frames| ensures r.frames[i].accuracy == AccuracyAt(hypot, samples, base, i) {
      AnsweredFrame(hypot, lines, swath, base, times, params, r, i);
    }
    var touched := Touched(Points(samples), swath / 2.0, params.resolution);
    var repeated := CellsRepeated(Points(samples), swath / 2.0, params.resolution, params.window);
    RepeatedTouched(Points(samples), swath / 2.0, params.resolution, params.window);
    assert touched == repeated + (touched - repeated);
    ShareOf(|repeated|, |touched|);
  }

  lemma AccuracyNonNegative(hypot: Hypot, samples: seq<Sample>, base: real, i: nat)
    requires IsEuclidean(hypot) && base >= 0.0 && i < |samples|
    ensures AccuracyAt(hypot, samples, base, i) >= 0.0
  {
    hide Project;
  }

  /** When a replay fails, and how: nothing to replay, more than 5000 vertices, or a swath circle of
      more than 5000 cells or two million cells in all. */
  lemma ReplayOutcome(hypot: Hypot, lines: seq<Line>, swath: real, base: real, startedAt: int, endedAt: int, params: Params)
    ensures var answer := Replayed(hypot, lines, swath, base, startedAt, endedAt, params);
            var n := VerticesBefore(lines, |lines|);
            var circle, cell := 3.14159265358979323846 * (swath / 2.0 * (swath / 2.0)), params.resolution * params.resolution;
            var posed := swath > 0.0 && params.resolution > 0.0 && params.window >= 1 && n >= 2;
            var big := circle > 5000.0 * cell || n as real * circle > 2000000.0 * cell;
            && (answer == Err(InvalidInput) <==> !posed)
            && (answer == Err(TooManySamples) <==> posed && n > 5000)
            && (answer == Err(ReplayError.GridTooLarge) <==> posed && n <= 5000 && big)
            && (answer.Ok? <==> posed && n <= 5000 && !big)
  {
    hide Flatten, Frames, Replay.Summarise, TooManyCells, VerticesBefore, Replayed;
    SampleCount(lines);
    Guards(hypot, lines, swath, base, startedAt, endedAt, params);
    if params.resolution > 0.0 {
      GuardIff(swath / 2.0, params.resolution, |Flatten(lines)|);
    }
  }

  lemma Guards(hypot: Hypot, lines: seq<Line>, swath: real, base: real, startedAt: int, endedAt: int, params: Params)
    ensures var answer, n := Replayed(hypot, lines, swath, base, startedAt, endedAt, params), |Flatten(lines)|;
            if swath <= 0.0 || params.resolution <= 0.0 || params.window < 1 || n < 2 then answer == Err(InvalidInput)
            else if n > 5000 then answer == Err(TooManySamples)
            else if TooManyCells(swath / 2.0, params.resolution, n) then answer == Err(ReplayError.GridTooLarge)
            else answer.Ok?
  {
    hide Flatten, Frames, Replay.Summarise, TooManyCells;
  }
}
