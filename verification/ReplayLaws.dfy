/** Laws of the replay: how many dropouts there can be, what they estimate, and how frames and
    summary account for the distance travelled. */
module ReplayLaws {
  import opened Euclid
  import opened Options
  import opened Coverage
  import opened Overlap
  import opened OverlapLaws
  import opened OrderStats
  import opened Replay

  // ----- at most half of the spacings are dropouts

  lemma {:induction false} CountAboveAppend(s: seq<real>, v: real, x: real)
    ensures CountAbove(s + [v], x) == CountAbove(s, x) + if v > x then 1 else 0
  {
    if |s| == 0 {
      assert s + [v] == [v];
    } else {
      assert (s + [v])[1..] == s[1..] + [v];
      CountAboveAppend(s[1..], v, x);
    }
  }

  /** The samples that start a line. */
  ghost function Starts(samples: seq<Sample>): nat {
    if |samples| == 0 then 0
    else Starts(samples[..|samples| - 1]) + if samples[|samples| - 1].lineStart then 1 else 0
  }

  ghost function NonEmptyLines(lines: seq<Line>): nat {
    if |lines| == 0 then 0
    else NonEmptyLines(lines[..|lines| - 1]) + if |lines[|lines| - 1]| > 0 then 1 else 0
  }

  lemma {:induction false} StartsAppend(s: seq<Sample>, t: seq<Sample>)
    ensures Starts(s + t) == Starts(s) + Starts(t)
  {
    if |t| == 0 {
      assert s + t == s;
    } else {
      assert (s + t)[..|s + t| - 1] == s + t[..|t| - 1];
      StartsAppend(s, t[..|t| - 1]);
    }
  }

  lemma {:induction false} LineStarts(line: Line, n: nat)
    requires n <= |line|
    ensures Starts(LineSamples(line)[..n]) == if n > 0 then 1 else 0
  {
    if n > 0 {
      LineStarts(line, n - 1);
      assert LineSamples(line)[..n][..n - 1] == LineSamples(line)[..n - 1];
    }
  }

  /** One start for every line that has samples, and the first sample is one of them. */
  lemma {:induction false} StartsAreLines(lines: seq<Line>)
    ensures Starts(Flatten(lines)) == NonEmptyLines(lines)
    ensures |Flatten(lines)| > 0 ==> Flatten(lines)[0].lineStart
  {
    if |lines| > 0 {
      var n := |lines| - 1;
      StartsAreLines(lines[..n]);
      StartsAppend(Flatten(lines[..n]), LineSamples(lines[n]));
      LineStarts(lines[n], |lines[n]|);
      assert LineSamples(lines[n])[..|lines[n]|] == LineSamples(lines[n]);
    }
  }

  lemma SpacingAbove(gap: real, factor: real, median: real)
    requires factor >= 1.0 && median >= 0.0 && gap > Times(factor, median)
    ensures gap > median
  {
    var _ := Product(factor - 1.0, median);
  }

  ghost function StartsBefore(samples: seq<Sample>, n: nat): nat
    requires n <= |samples|
  {
    if n == 0 then 0 else StartsBefore(samples, n - 1) + if samples[n - 1].lineStart then 1 else 0
  }

  lemma {:induction false} StartsSlices(samples: seq<Sample>, n: nat)
    requires n <= |samples|
    ensures StartsBefore(samples, n) == Starts(samples[..n])
  {
    if n > 0 {
      StartsSlices(samples, n - 1);
      assert samples[..n][..n - 1] == samples[..n - 1];
    }
  }

  lemma {:induction false} DropoutsByKind(hypot: Hypot, samples: seq<Sample>, factor: real, median: real, n: nat)
    requires factor >= 1.0 && median >= 0.0
    requires 0 < n <= |samples| && samples[0].lineStart
    ensures StartsBefore(samples, n) >= 1
    ensures |Dropouts(hypot, samples, factor, median, n)|
         <= CountAbove(Spacings(hypot, samples, n), median) + StartsBefore(samples, n) - 1
  {
    hide Times, DropoutAt, CountAbove;
    if n == 1 {
      assert Dropouts(hypot, samples, factor, median, 0) == [];
      assert Dropouts(hypot, samples, factor, median, 1) == [];
    } else {
      DropoutsByKind(hypot, samples, factor, median, n - 1);
      var before := Spacings(hypot, samples, n - 1);
      if samples[n - 1].lineStart {
        assert Spacings(hypot, samples, n) == before;
      } else {
        CountAboveAppend(before, GapAt(hypot, samples, n - 1), median);
      }
      if IsDropout(hypot, samples, factor, median, n - 1) {
        SpacingAbove(GapAt(hypot, samples, n - 1), factor, median);
      }
    }
  }

  lemma {:induction false} SpacingsNonNegative(hypot: Hypot, samples: seq<Sample>, n: nat)
    requires IsEuclidean(hypot) && n <= |samples|
    ensures forall k :: 0 <= k < |Spacings(hypot, samples, n)| ==> Spacings(hypot, samples, n)[k] >= 0.0
  {
    if n >= 2 {
      SpacingsNonNegative(hypot, samples, n - 1);
    }
  }

  /** With a dropout factor of at least one, at most half of the spacings within lines, plus the
      jumps between lines, are dropouts. */
  lemma DropoutLimit(hypot: Hypot, lines: seq<Line>, swath: real, base: real,
                     startedAt: int, endedAt: int, params: Params, r: Snapshot)
    requires IsEuclidean(hypot) && params.dropoutFactor >= 1.0
    requires Replayed(hypot, lines, swath, base, startedAt, endedAt, params) == Ok(r)
    ensures r.summary.dropoutEvents
         <= |Spacings(hypot, Flatten(lines), |Flatten(lines)|)| / 2 + NonEmptyLines(lines) - 1
  {
    hide Touched, CellsRepeated, FlagsAt, AccuracyAt, TooManyCells;
    var samples := Flatten(lines);
    var n := |samples|;
    StartsAreLines(lines);
    StartsSlices(samples, n);
    assert samples[..n] == samples;
    SpacingsNonNegative(hypot, samples, n);
    MedianNonNegative(Spacings(hypot, samples, n));
    MedianIsMiddle(Spacings(hypot, samples, n));
    DropoutsByKind(hypot, samples, params.dropoutFactor, MedianGap(hypot, samples), n);
  }

  // ----- what a dropout estimates

  lemma RoundNearest(x: real)
    ensures -0.5 <= x - Round(x) as real <= 0.5
  {
  }

  /** A gap of more than one and a half medians misses at least one sample, so the clamp at zero
      never acts, and the estimate is within half a median of the gap. */
  lemma MissingEstimate(gap: real, median: real, factor: real)
    requires median > 0.0 && factor >= 1.5 && gap > Times(factor, median)
    ensures Missing(gap, median) >= 1 && Missing(gap, median) == Round(gap / median) - 1
    ensures var left := gap - Times((Missing(gap, median) + 1) as real, median);
            -median / 2.0 <= left <= median / 2.0
  {
    var q := gap / median;
    Quotient(gap, median);
    if q <= 1.5 {
      var _ := Product(1.5 - q, median);
      var _ := Product(factor - 1.5, median);
    }
    RoundNearest(q);
    assert Round(q) >= 2;
    var n := Round(q) as real;
    Nearby(gap, q, n, median);
    assert (Missing(gap, median) + 1) as real == n;
  }

  lemma Nearby(gap: real, q: real, n: real, median: real)
    requires median > 0.0 && median * q == gap && -0.5 <= q - n <= 0.5
    ensures -median / 2.0 <= gap - Times(n, median) <= median / 2.0
  {
    var above := Product(median, 0.5 - (q - n));
    var below := Product(median, 0.5 + (q - n));
    assert above == median * 0.5 - median * q + median * n;
    assert below == median * 0.5 + median * q - median * n;
  }

  ghost function GapLength(gaps: seq<DropoutGap>): real {
    if |gaps| == 0 then 0.0 else GapLength(gaps[..|gaps| - 1]) + gaps[|gaps| - 1].length
  }

  lemma OneEstimate(gap: real, missing: int, median: real, dropped: int, events: nat, total: real)
    requires -median / 2.0 <= gap - Times((missing + 1) as real, median)
    requires Times(dropped as real, median) + Times(events as real, median / 2.0) <= total
    ensures Times((dropped + missing) as real, median) + Times((events + 1) as real, median / 2.0) <= total + gap
  {
    var d, m, e := dropped as real, missing as real, events as real;
    assert (missing + 1) as real == m + 1.0;
    assert (dropped + missing) as real == d + m && (events + 1) as real == e + 1.0;
    Distribute(d, m, median);
    Distribute(m, 1.0, median);
    Distribute(e, 1.0, median / 2.0);
  }

  lemma Distribute(a: real, b: real, c: real)
    ensures Times(a + b, c) == Times(a, c) + Times(b, c)
    ensures Times(1.0, c) == c
  {
  }

  lemma NoEvents(median: real)
    ensures Times(0 as real, median) == 0.0 && Times(0 as real, median / 2.0) == 0.0
  {
  }

  lemma {:induction false} EstimatesWithinGaps(hypot: Hypot, samples: seq<Sample>, factor: real, median: real, n: nat)
    requires IsEuclidean(hypot) && median > 0.0 && factor >= 1.5 && 0 < n <= |samples|
    ensures var gaps := Dropouts(hypot, samples, factor, median, n);
            && Times(DroppedPoints(gaps) as real, median) + Times(|gaps| as real, median / 2.0) <= GapLength(gaps)
            && GapLength(gaps) <= Travelled(hypot, samples, n - 1)
  {
    hide Missing, Times;
    var gaps := Dropouts(hypot, samples, factor, median, n);
    if n == 1 {
      assert Dropouts(hypot, samples, factor, median, 0) == [];
      assert gaps == [];
      NoEvents(median);
    } else {
      EstimatesWithinGaps(hypot, samples, factor, median, n - 1);
      var before := Dropouts(hypot, samples, factor, median, n - 1);
      var gap := GapAt(hypot, samples, n - 1);
      assert gap >= 0.0;
      if IsDropout(hypot, samples, factor, median, n - 1) {
        MissingEstimate(gap, median, factor);
        assert gaps[..|gaps| - 1] == before;
        OneEstimate(gap, Missing(gap, median), median, DroppedPoints(before), |before|, GapLength(before));
      } else {
        assert gaps == before;
      }
    }
  }

  /** Estimated missing samples never add up to more distance than was travelled. */
  lemma DroppedWithinTrack(hypot: Hypot, lines: seq<Line>, swath: real, base: real,
                           startedAt: int, endedAt: int, params: Params, r: Snapshot)
    requires IsEuclidean(hypot) && params.dropoutFactor >= 1.5
    requires Replayed(hypot, lines, swath, base, startedAt, endedAt, params) == Ok(r)
    requires MedianGap(hypot, Flatten(lines)) > 0.0
    ensures var median := MedianGap(hypot, Flatten(lines));
            Times(r.summary.droppedPoints as real, median)
              + Times(r.summary.dropoutEvents as real, median / 2.0)
            <= r.frames[|r.frames| - 1].cumulative
  {
    hide MedianGap, Touched, CellsRepeated, FlagsAt, Deviation, Times, TooManyCells;
    var samples := Flatten(lines);
    EstimatesWithinGaps(hypot, samples, params.dropoutFactor, MedianGap(hypot, samples), |samples|);
  }

  // ----- distance

  lemma {:induction false} Farther(hypot: Hypot, samples: seq<Sample>, i: nat, j: nat)
    requires IsEuclidean(hypot) && i <= j < |samples|
    ensures Travelled(hypot, samples, j) - Travelled(hypot, samples, i)
         >= hypot(samples[i].point, samples[j].point) >= 0.0
  {
    if i == j {
      HypotBasics(hypot, samples[i].point, samples[j].point);
    } else {
      Farther(hypot, samples, i, j - 1);
      Triangle(hypot, samples[i].point, samples[j - 1].point, samples[j].point);
    }
  }

  /** Cumulative distance never falls, and between any two frames it grows by at least their
      straight-line distance. */
  lemma CumulativeDominates(hypot: Hypot, lines: seq<Line>, swath: real, base: real,
                            startedAt: int, endedAt: int, params: Params, r: Snapshot, i: nat, j: nat)
    requires IsEuclidean(hypot)
    requires Replayed(hypot, lines, swath, base, startedAt, endedAt, params) == Ok(r)
    requires i <= j < |r.frames|
    ensures r.frames[i].cumulative <= r.frames[j].cumulative
    ensures hypot(Point(r.frames[i].x, r.frames[i].y), Point(r.frames[j].x, r.frames[j].y))
         <= r.frames[j].cumulative - r.frames[i].cumulative
  {
    hide FlagsAt, Touched, CellsRepeated, AccuracyAt, TooManyCells;
    Farther(hypot, Flatten(lines), i, j);
  }

  /** The distance within lines, over the first n samples. */
  ghost function InLine(hypot: Hypot, samples: seq<Sample>, n: nat): real
    requires n <= |samples|
  {
    if n < 2 then 0.0
    else InLine(hypot, samples, n - 1) + if samples[n - 1].lineStart then 0.0 else GapAt(hypot, samples, n - 1)
  }

  /** The distance between the end of each line and the start of the next. */
  ghost function Jumps(hypot: Hypot, samples: seq<Sample>, n: nat): real
    requires n <= |samples|
  {
    if n < 2 then 0.0
    else Jumps(hypot, samples, n - 1) + if samples[n - 1].lineStart then GapAt(hypot, samples, n - 1) else 0.0
  }

  lemma {:induction false} TravelledSplits(hypot: Hypot, samples: seq<Sample>, i: nat)
    requires i < |samples|
    ensures Travelled(hypot, samples, i) == InLine(hypot, samples, i + 1) + Jumps(hypot, samples, i + 1)
  {
    if i > 0 {
      TravelledSplits(hypot, samples, i - 1);
    }
  }

  lemma {:induction false} InLinePrefix(hypot: Hypot, s: seq<Sample>, t: seq<Sample>, n: nat)
    requires n <= |s|
    ensures InLine(hypot, s + t, n) == InLine(hypot, s, n)
  {
    if n >= 2 {
      InLinePrefix(hypot, s, t, n - 1);
    }
  }

  lemma {:induction false} InLineAppend(hypot: Hypot, s: seq<Sample>, line: Line, n: nat)
    requires n <= |line|
    ensures InLine(hypot, s + LineSamples(line), |s| + n)
         == InLine(hypot, s, |s|) + PathLength(hypot, line[..n])
  {
    if n == 0 {
      InLinePrefix(hypot, s, LineSamples(line), |s|);
    } else {
      InLineAppend(hypot, s, line, n - 1);
      assert line[..n][..n - 1] == line[..n - 1];
    }
  }

  lemma {:induction false} InLineIsTrackLength(hypot: Hypot, lines: seq<Line>)
    ensures InLine(hypot, Flatten(lines), |Flatten(lines)|) == TotalLength(hypot, lines)
  {
    if |lines| > 0 {
      var n := |lines| - 1;
      var line := lines[n];
      InLineIsTrackLength(hypot, lines[..n]);
      InLineAppend(hypot, Flatten(lines[..n]), line, |line|);
      assert line[..|line|] == line;
    }
  }

  /** The last cumulative distance is the track length plus the jumps between lines. */
  lemma CumulativeTotal(hypot: Hypot, lines: seq<Line>, swath: real, base: real,
                        startedAt: int, endedAt: int, params: Params, r: Snapshot)
    requires Replayed(hypot, lines, swath, base, startedAt, endedAt, params) == Ok(r)
    ensures var samples := Flatten(lines);
            r.frames[|r.frames| - 1].cumulative == r.summary.trackLength + Jumps(hypot, samples, |samples|)
  {
    hide FlagsAt, AccuracyAt, TooManyCells, Touched, CellsRepeated, Flatten, InLine, Jumps, Travelled,
         TotalLength, Dropouts, DroppedPoints, MaxAccuracy, Anomalies, MedianGap, FlagList;
    var samples := Flatten(lines);
    TravelledSplits(hypot, samples, |samples| - 1);
    InLineIsTrackLength(hypot, lines);
  }

  // ----- flags and summary agree

  lemma {:induction false} DropoutListed(hypot: Hypot, samples: seq<Sample>, factor: real, median: real, n: nat, i: nat)
    requires n <= |samples|
    ensures (exists g :: g in Dropouts(hypot, samples, factor, median, n) && g.afterIndex + 1 == i)
       <==> i < n && IsDropout(hypot, samples, factor, median, i)
  {
    hide Missing, Times;
    if n > 0 {
      DropoutListed(hypot, samples, factor, median, n - 1, i);
      var gaps := Dropouts(hypot, samples, factor, median, n);
      if i == n - 1 && IsDropout(hypot, samples, factor, median, i) {
        assert gaps[|gaps| - 1].afterIndex + 1 == i;
      }
    }
  }

  lemma ListedFlags(flags: set<Flag>, f: Flag)
    ensures f in FlagList(flags) <==> f in flags
  {
  }

  /** The frames flagged as dropouts are exactly those right after a listed gap. */
  lemma DropoutFramesMatchGaps(hypot: Hypot, lines: seq<Line>, swath: real, base: real,
                               startedAt: int, endedAt: int, params: Params, r: Snapshot, i: nat)
    requires Replayed(hypot, lines, swath, base, startedAt, endedAt, params) == Ok(r)
    requires i < |r.frames|
    ensures Dropout in r.frames[i].flags
       <==> exists g :: g in r.summary.dropoutGaps && g.afterIndex + 1 == i
  {
    hide AccuracyAt, TooManyCells, Touched, CellsRepeated, Flagged, IsDropout, Dropouts, FlagList, MedianGap;
    var samples := Flatten(lines);
    DropoutListed(hypot, samples, params.dropoutFactor, MedianGap(hypot, samples), |samples|, i);
    ListedFlags(FlagsAt(hypot, samples, swath, base, params, i), Dropout);
  }

  /** As many frames carry the accuracy flag as the summary counts anomalies, each being a frame
      whose accuracy exceeds the threshold. */
  lemma AccuracyFramesCounted(hypot: Hypot, lines: seq<Line>, swath: real, base: real,
                              startedAt: int, endedAt: int, params: Params, r: Snapshot)
    requires Replayed(hypot, lines, swath, base, startedAt, endedAt, params) == Ok(r)
    ensures forall i :: 0 <= i < |r.frames| ==>
              (Accuracy in r.frames[i].flags <==> r.frames[i].accuracy > r.summary.accuracyThreshold)
    ensures r.summary.accuracyAnomalies == |set i: nat | i < |r.frames| && Accuracy in r.frames[i].flags|
  {
    hide AccuracyAt, TooManyCells, Touched, CellsRepeated, Flagged, IsDropout, Dropouts, FlagList, MedianGap, Flatten,
         TotalLength, MaxAccuracy, Travelled;
    var samples := Flatten(lines);
    forall i | 0 <= i < |samples|
      ensures Accuracy in r.frames[i].flags <==> AccuracyAt(hypot, samples, base, i) > params.accuracyThreshold
    {
      ListedFlags(FlagsAt(hypot, samples, swath, base, params, i), Accuracy);
    }
    assert (set i: nat | i < |r.frames| && Accuracy in r.frames[i].flags)
        == Anomalies(hypot, samples, base, params.accuracyThreshold, |samples|);
  }

  /** Every overlap flag reports an earlier sample, more than a window back, that swept the cell
      the flagged sample lies in. */
  lemma OverlapFramesMean(hypot: Hypot, lines: seq<Line>, swath: real, base: real,
                          startedAt: int, endedAt: int, params: Params, r: Snapshot, i: nat)
    requires Replayed(hypot, lines, swath, base, startedAt, endedAt, params) == Ok(r)
    requires i < |r.frames|
    ensures Repeated in r.frames[i].flags <==>
              var p := Points(Flatten(lines));
              exists e: nat :: e + params.window < i
                               && Reaches(p[e], CellOf(p[i], params.resolution), swath / 2.0, params.resolution)
  {
    hide AccuracyAt, TooManyCells, Touched, CellsRepeated, Flagged, IsDropout, Dropouts, FlagList, MedianGap,
         Reaches, CellIndex;
    var samples := Flatten(lines);
    ListedFlags(FlagsAt(hypot, samples, swath, base, params, i), Repeated);
    FlagMeaning(Points(samples), i, swath / 2.0, params.resolution, params.window);
  }

  /** No sample is reported less accurate than the base error plus its distance to the nearer of
      its two neighbours. */
  lemma AccuracyBounded(hypot: Hypot, samples: seq<Sample>, base: real, i: nat)
    requires IsEuclidean(hypot) && 0 < i < |samples| - 1
    ensures base <= AccuracyAt(hypot, samples, base, i)
    ensures AccuracyAt(hypot, samples, base, i)
         <= base + Min(hypot(samples[i].point, samples[i - 1].point), hypot(samples[i].point, samples[i + 1].point))
  {
    hide Project;
    var p, a, b := samples[i].point, samples[i - 1].point, samples[i + 1].point;
    NoNearer(p, a, b, 0.0);
    NoNearer(p, a, b, 1.0);
    AlongEnds(a, b);
    Closer(hypot, p, Project(p, a, b), a);
    Closer(hypot, p, Project(p, a, b), b);
    HypotBasics(hypot, p, a);
    HypotBasics(hypot, p, b);
    HypotBasics(hypot, p, Project(p, a, b));
  }

  lemma AlongEnds(a: Point, b: Point)
    ensures Along(a, b, 0.0) == a && Along(a, b, 1.0) == b
  {
  }

  lemma Closer(hypot: Hypot, p: Point, q: Point, a: Point)
    requires IsEuclidean(hypot) && Dist2(p, q) <= Dist2(p, a)
    ensures hypot(p, q) <= hypot(p, a)
  {
    SquareOrder(hypot(p, q), hypot(p, a));
  }
}
