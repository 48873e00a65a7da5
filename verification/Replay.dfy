/** Replay of a run sample by sample: spacing dropouts, positioning accuracy and revisits. */
module Replay {
  import opened Euclid
  import opened Options
  import opened Rings
  import opened Coverage
  import opened Overlap
  import opened OrderStats

  const MAX_SAMPLES := 5000

  datatype Params = Params(dropoutFactor: real, accuracyThreshold: real, resolution: real, window: int)

  datatype Sample = Sample(point: Point, lineStart: bool)

  datatype Frame = Frame(index: nat, x: real, y: real, cumulative: real, accuracy: real, flags: seq<Flag>)

  datatype DropoutGap = DropoutGap(afterIndex: nat, length: real, missing: int)

  datatype Summary = Summary(
    sampleCount: nat, trackLength: real, durationMinutes: real,
    droppedPoints: int, dropoutEvents: nat, dropoutGaps: seq<DropoutGap>,
    coveredCells: nat, overlapCells: nat, overlapRatio: real,
    accuracyAnomalies: nat, accuracyThreshold: real, maxAccuracy: real, resolution: real)

  datatype ReplayError = InvalidInput | TooManySamples | GridTooLarge

  datatype Snapshot = Snapshot(frames: seq<Frame>, summary: Summary)

  // ----- samples

  ghost function LineSamples(line: Line): seq<Sample> {
    seq(|line|, i requires 0 <= i < |line| => Sample(line[i], i == 0))
  }

  ghost function Flatten(lines: seq<Line>): seq<Sample> {
    if |lines| == 0 then [] else Flatten(lines[..|lines| - 1]) + LineSamples(lines[|lines| - 1])
  }

  method FlattenSamples(lines: seq<Line>) returns (samples: seq<Sample>)
    ensures samples == Flatten(lines)
  {
    samples := [];
    for l := 0 to |lines|
      invariant samples == Flatten(lines[..l])
    {
      assert lines[..l + 1][..l] == lines[..l];
      for i := 0 to |lines[l]|
        invariant samples == Flatten(lines[..l]) + LineSamples(lines[l])[..i]
      {
        samples := samples + [Sample(lines[l][i], i == 0)];
      }
      assert LineSamples(lines[l])[..|lines[l]|] == LineSamples(lines[l]);
    }
    assert lines[..|lines|] == lines;
  }

  ghost function Points(samples: seq<Sample>): seq<Point> {
    seq(|samples|, i requires 0 <= i < |samples| => samples[i].point)
  }

  method CountSamples(lines: seq<Line>) returns (total: nat)
    ensures total == |Flatten(lines)|
  {
    total := 0;
    for l := 0 to |lines|
      invariant total == |Flatten(lines[..l])|
    {
      assert lines[..l + 1][..l] == lines[..l];
      total := total + |lines[l]|;
    }
    assert lines[..|lines|] == lines;
  }

  /** Finds the first sample, in flattened order, that the boundary does not contain. */
  method FirstOutsideBoundary(lines: seq<Line>, boundary: Polygon) returns (r: Option<(nat, Point)>)
    requires |boundary| > 0
    ensures r.None? ==> forall k :: 0 <= k < |Flatten(lines)| ==> Contains(boundary, Flatten(lines)[k].point)
    ensures r.Some? ==>
              && r.value.0 < |Flatten(lines)| && Flatten(lines)[r.value.0].point == r.value.1
              && !Contains(boundary, r.value.1)
              && forall k :: 0 <= k < r.value.0 ==> Contains(boundary, Flatten(lines)[k].point)
  {
    var index := 0;
    for l := 0 to |lines|
      invariant index == |Flatten(lines[..l])|
      invariant forall k :: 0 <= k < index ==> Contains(boundary, Flatten(lines[..l])[k].point)
    {
      assert lines[..l + 1][..l] == lines[..l];
      ghost var base := Flatten(lines[..l]);
      ghost var longer := Flatten(lines[..l + 1]);
      FlattenPrefix(lines, l + 1);
      for i := 0 to |lines[l]|
        invariant index == |base| + i
        invariant forall k :: 0 <= k < index ==> Contains(boundary, longer[k].point)
      {
        assert longer[index].point == lines[l][i];
        var contained := PolygonContains(boundary, lines[l][i]);
        if !contained {
          return Some((index, lines[l][i]));
        }
        index := index + 1;
      }
    }
    assert lines[..|lines|] == lines;
    return None;
  }

  lemma {:induction false} FlattenPrefix(lines: seq<Line>, l: nat)
    requires l <= |lines|
    ensures Flatten(lines[..l]) <= Flatten(lines)
    decreases |lines| - l
  {
    if l < |lines| {
      FlattenPrefix(lines, l + 1);
      assert lines[..l + 1][..l] == lines[..l];
    } else {
      assert lines[..l] == lines;
    }
  }

  // ----- spacing

  ghost function GapAt(hypot: Hypot, samples: seq<Sample>, i: nat): real
    requires 0 < i < |samples|
  {
    hypot(samples[i - 1].point, samples[i].point)
  }

  /** The spacings within lines, skipping the jumps between them, among the first n samples. */
  ghost function Spacings(hypot: Hypot, samples: seq<Sample>, n: nat): seq<real>
    requires n <= |samples|
  {
    if n < 2 then []
    else Spacings(hypot, samples, n - 1) + if samples[n - 1].lineStart then [] else [GapAt(hypot, samples, n - 1)]
  }

  ghost function MedianGap(hypot: Hypot, samples: seq<Sample>): real {
    Median(Spacings(hypot, samples, |samples|))
  }

  method MedianSpacing(hypot: Hypot, samples: seq<Sample>) returns (median: real)
    ensures median == MedianGap(hypot, samples)
  {
    var spacings: seq<real> := [];
    var i := 1;
    while i < |samples|
      invariant 1 <= i && (i <= |samples| || i == 1)
      invariant spacings == if i <= |samples| then Spacings(hypot, samples, i) else []
    {
      if !samples[i].lineStart {
        spacings := spacings + [hypot(samples[i - 1].point, samples[i].point)];
      }
      i := i + 1;
    }
    assert spacings == Spacings(hypot, samples, |samples|);
    median := Median(spacings);
  }

  ghost predicate IsDropout(hypot: Hypot, samples: seq<Sample>, factor: real, median: real, i: nat)
    requires i < |samples|
  {
    i > 0 && GapAt(hypot, samples, i) > Times(factor, median) && GapAt(hypot, samples, i) > 0.0
  }

  /** Rounds half away from zero. */
  function Round(x: real): int {
    if x >= 0.0 then (x + 0.5).Floor else -((0.5 - x).Floor)
  }

  /** The samples estimated missing from a gap. */
  function Missing(gap: real, median: real): int {
    var missing := if median > 0.0 then Round(gap / median) - 1 else 0;
    if missing < 0 then 0 else missing
  }

  ghost function DropoutAt(hypot: Hypot, samples: seq<Sample>, median: real, i: nat): DropoutGap
    requires 0 < i < |samples|
  {
    DropoutGap(i - 1, GapAt(hypot, samples, i), Missing(GapAt(hypot, samples, i), median))
  }

  /** The dropouts among the first n samples, median and factor given. */
  ghost function Dropouts(hypot: Hypot, samples: seq<Sample>, factor: real, median: real, n: nat): seq<DropoutGap>
    requires n <= |samples|
  {
    if n == 0 then []
    else
      Dropouts(hypot, samples, factor, median, n - 1)
      + if IsDropout(hypot, samples, factor, median, n - 1) then [DropoutAt(hypot, samples, median, n - 1)] else []
  }

  ghost function DroppedPoints(gaps: seq<DropoutGap>): int {
    if |gaps| == 0 then 0 else DroppedPoints(gaps[..|gaps| - 1]) + gaps[|gaps| - 1].missing
  }

  /** The distance travelled up to sample i, jumps between lines included. */
  ghost function Travelled(hypot: Hypot, samples: seq<Sample>, i: nat): real
    requires i < |samples|
  {
    if i == 0 then 0.0 else Travelled(hypot, samples, i - 1) + GapAt(hypot, samples, i)
  }

  ghost function PathLength(hypot: Hypot, line: Line): real {
    if |line| < 2 then 0.0
    else PathLength(hypot, line[..|line| - 1]) + hypot(line[|line| - 2], line[|line| - 1])
  }

  ghost function TotalLength(hypot: Hypot, lines: seq<Line>): real {
    if |lines| == 0 then 0.0
    else TotalLength(hypot, lines[..|lines| - 1]) + PathLength(hypot, lines[|lines| - 1])
  }

  method TrackLength(hypot: Hypot, lines: seq<Line>) returns (total: real)
    ensures total == TotalLength(hypot, lines)
  {
    total := 0.0;
    for l := 0 to |lines|
      invariant total == TotalLength(hypot, lines[..l])
    {
      assert lines[..l + 1][..l] == lines[..l];
      var line := lines[l];
      var i := 1;
      assert |line| > 0 ==> PathLength(hypot, line[..1]) == 0.0;
      while i < |line|
        invariant 1 <= i
        invariant i <= |line| ==> total == TotalLength(hypot, lines[..l]) + PathLength(hypot, line[..i])
        invariant i > |line| ==> i == 1 && total == TotalLength(hypot, lines[..l])
      {
        assert line[..i + 1][..i] == line[..i];
        total := total + hypot(line[i - 1], line[i]);
        i := i + 1;
      }
      assert |line| > 0 ==> line[..|line|] == line;
    }
    assert lines[..|lines|] == lines;
  }

  // ----- accuracy

  /** How far an inner sample strays from the segment between its neighbours in the same line. */
  ghost function Deviation(hypot: Hypot, samples: seq<Sample>, i: nat): real
    requires i < |samples|
  {
    if i > 0 && i < |samples| - 1 && !samples[i].lineStart && !samples[i + 1].lineStart
    then hypot(samples[i].point, Project(samples[i].point, samples[i - 1].point, samples[i + 1].point))
    else 0.0
  }

  ghost function AccuracyAt(hypot: Hypot, samples: seq<Sample>, base: real, i: nat): real
    requires i < |samples|
  {
    base + Deviation(hypot, samples, i)
  }

  /** The samples among the first n whose accuracy exceeds the threshold. */
  ghost function Anomalies(hypot: Hypot, samples: seq<Sample>, base: real, threshold: real, n: nat): set<nat>
    requires n <= |samples|
  {
    set i: nat | i < n && AccuracyAt(hypot, samples, base, i) > threshold
  }

  ghost function MaxAccuracy(hypot: Hypot, samples: seq<Sample>, base: real, n: nat): real
    requires n <= |samples|
  {
    if n == 0 then 0.0
    else Max(AccuracyAt(hypot, samples, base, n - 1), MaxAccuracy(hypot, samples, base, n - 1))
  }

  ghost function AccuracyFlags(hypot: Hypot, samples: seq<Sample>, base: real, threshold: real, i: nat): set<Flag>
    requires i < |samples|
  {
    if AccuracyAt(hypot, samples, base, i) > threshold then {Accuracy} else {}
  }

  method SampleAccuracy(hypot: Hypot, samples: seq<Sample>, base: real, i: nat) returns (accuracy: real)
    requires i < |samples|
    ensures accuracy == AccuracyAt(hypot, samples, base, i)
  {
    var deviation := 0.0;
    if i > 0 && i < |samples| - 1 && !samples[i].lineStart && !samples[i + 1].lineStart {
      var p := samples[i].point;
      deviation := hypot(p, Project(p, samples[i - 1].point, samples[i + 1].point));
    }
    accuracy := base + deviation;
  }

  method MarkAccuracy(hypot: Hypot, samples: seq<Sample>, frames: array<Frame>, flagSets: array<set<Flag>>,
                      base: real, threshold: real)
    returns (anomalies: nat, maxAccuracy: real)
    requires frames.Length == flagSets.Length == |samples|
    modifies frames, flagSets
    ensures anomalies == |Anomalies(hypot, samples, base, threshold, |samples|)|
    ensures maxAccuracy == MaxAccuracy(hypot, samples, base, |samples|)
    ensures forall i :: 0 <= i < |samples| ==>
              frames[i] == old(frames[i]).(accuracy := AccuracyAt(hypot, samples, base, i))
    ensures forall i :: 0 <= i < |samples| ==>
              flagSets[i] == old(flagSets[i]) + AccuracyFlags(hypot, samples, base, threshold, i)
  {
    hide Anomalies, AccuracyAt;
    anomalies, maxAccuracy := 0, 0.0;
    NoAnomalies(hypot, samples, base, threshold);
    for i := 0 to |samples|
      invariant anomalies == |Anomalies(hypot, samples, base, threshold, i)|
      invariant maxAccuracy == MaxAccuracy(hypot, samples, base, i)
      invariant forall k :: 0 <= k < i ==>
                  frames[k] == old(frames[k]).(accuracy := AccuracyAt(hypot, samples, base, k))
      invariant forall k :: 0 <= k < i ==>
                  flagSets[k] == old(flagSets[k]) + AccuracyFlags(hypot, samples, base, threshold, k)
      invariant forall k :: i <= k < |samples| ==> frames[k] == old(frames[k])
      invariant forall k :: i <= k < |samples| ==> flagSets[k] == old(flagSets[k])
    {
      var accuracy := SampleAccuracy(hypot, samples, base, i);
      MaxAccuracyStep(hypot, samples, base, i);
      AnomaliesStep(hypot, samples, base, threshold, i);
      hide MaxAccuracy;
      frames[i] := frames[i].(accuracy := accuracy);
      if accuracy > maxAccuracy {
        maxAccuracy := accuracy;
      }
      if accuracy > threshold {
        anomalies := anomalies + 1;
        flagSets[i] := flagSets[i] + {Accuracy};
      }
    }
  }

  lemma MaxAccuracyStep(hypot: Hypot, samples: seq<Sample>, base: real, i: nat)
    requires i < |samples|
    ensures MaxAccuracy(hypot, samples, base, i + 1)
         == Max(AccuracyAt(hypot, samples, base, i), MaxAccuracy(hypot, samples, base, i))
  {
  }

  lemma NoAnomalies(hypot: Hypot, samples: seq<Sample>, base: real, threshold: real)
    ensures Anomalies(hypot, samples, base, threshold, 0) == {}
  {
  }

  lemma AnomaliesStep(hypot: Hypot, samples: seq<Sample>, base: real, threshold: real, i: nat)
    requires i < |samples|
    ensures |Anomalies(hypot, samples, base, threshold, i + 1)|
         == |Anomalies(hypot, samples, base, threshold, i)|
            + if AccuracyAt(hypot, samples, base, i) > threshold then 1 else 0
  {
    hide Deviation;
    var before := Anomalies(hypot, samples, base, threshold, i);
    var after := Anomalies(hypot, samples, base, threshold, i + 1);
    if AccuracyAt(hypot, samples, base, i) > threshold {
      assert after == before + {i};
    } else {
      assert after == before;
    }
  }

  // ----- the snapshot

  /** Flags are listed in a fixed order. */
  function FlagList(flags: set<Flag>): seq<Flag> {
    (if Dropout in flags then [Dropout] else [])
    + (if Accuracy in flags then [Accuracy] else [])
    + (if Repeated in flags then [Repeated] else [])
  }

  ghost function FlagsAt(hypot: Hypot, samples: seq<Sample>, swath: real, base: real, params: Params, i: nat): set<Flag>
    requires i < |samples| && params.resolution > 0.0
  {
    var median := MedianGap(hypot, samples);
    (if IsDropout(hypot, samples, params.dropoutFactor, median, i) then {Dropout} else {})
    + AccuracyFlags(hypot, samples, base, params.accuracyThreshold, i)
    + OverlapFlags(Points(samples), i, swath / 2.0, params.resolution, params.window)
  }

  ghost function FrameAt(hypot: Hypot, samples: seq<Sample>, swath: real, base: real, params: Params, i: nat): Frame
    requires i < |samples| && params.resolution > 0.0
  {
    Frame(i, samples[i].point.x, samples[i].point.y, Travelled(hypot, samples, i),
          AccuracyAt(hypot, samples, base, i), FlagList(FlagsAt(hypot, samples, swath, base, params, i)))
  }

  function Share(part: nat, whole: nat): real {
    if whole > 0 then part as real / whole as real else 0.0
  }

  function Minutes(startedAt: int, endedAt: int): real {
    (endedAt - startedAt) as real / 60000000000.0
  }

  ghost function Summarise(hypot: Hypot, lines: seq<Line>, swath: real, base: real,
                           startedAt: int, endedAt: int, params: Params): Summary
    requires params.resolution > 0.0
  {
    var samples := Flatten(lines);
    var radius := swath / 2.0;
    var gaps := Dropouts(hypot, samples, params.dropoutFactor, MedianGap(hypot, samples), |samples|);
    var covered := |Touched(Points(samples), radius, params.resolution)|;
    var overlap := |CellsRepeated(Points(samples), radius, params.resolution, params.window)|;
    Summary(|samples|, TotalLength(hypot, lines), Minutes(startedAt, endedAt),
            DroppedPoints(gaps), |gaps|, gaps, covered, overlap, Share(overlap, covered),
            |Anomalies(hypot, samples, base, params.accuracyThreshold, |samples|)|,
            params.accuracyThreshold, MaxAccuracy(hypot, samples, base, |samples|), params.resolution)
  }

  ghost function Frames(hypot: Hypot, samples: seq<Sample>, swath: real, base: real, params: Params): seq<Frame>
    requires params.resolution > 0.0
  {
    seq(|samples|, i requires 0 <= i < |samples| => FrameAt(hypot, samples, swath, base, params, i))
  }

  /** What a replay of the lines must answer, errors included. */
  ghost function Replayed(hypot: Hypot, lines: seq<Line>, swath: real, base: real,
                          startedAt: int, endedAt: int, params: Params): Result<Snapshot, ReplayError>
  {
    var samples := Flatten(lines);
    if swath <= 0.0 || params.resolution <= 0.0 || params.window < 1 || |samples| < 2 then Err(InvalidInput)
    else if |samples| > MAX_SAMPLES then Err(TooManySamples)
    else if TooManyCells(swath / 2.0, params.resolution, |samples|) then Err(ReplayError.GridTooLarge)
    else Ok(Snapshot(Frames(hypot, samples, swath, base, params),
                     Summarise(hypot, lines, swath, base, startedAt, endedAt, params)))
  }

  ghost predicate Walked(hypot: Hypot, samples: seq<Sample>, factor: real, median: real,
                         i: nat, frame: Frame, flags: set<Flag>)
    requires i < |samples|
  {
    && frame == Frame(i, samples[i].point.x, samples[i].point.y, Travelled(hypot, samples, i), 0.0, [])
    && flags == if IsDropout(hypot, samples, factor, median, i) then {Dropout} else {}
  }

  /** Builds the frames in place, collecting the dropouts on the way. */
  method WalkSamples(hypot: Hypot, samples: seq<Sample>, frames: array<Frame>, flagSets: array<set<Flag>>,
                     factor: real, median: real)
    returns (gaps: seq<DropoutGap>, dropped: int)
    requires frames.Length == flagSets.Length == |samples|
    requires forall i :: 0 <= i < |samples| ==> flagSets[i] == {}
    modifies frames, flagSets
    ensures gaps == Dropouts(hypot, samples, factor, median, |samples|) && dropped == DroppedPoints(gaps)
    ensures forall i :: 0 <= i < |samples| ==>
              Walked(hypot, samples, factor, median, i, frames[i], flagSets[i])
  {
    hide Missing, Times;
    gaps, dropped := [], 0;
    var cumulative := 0.0;
    for i := 0 to |samples|
      invariant gaps == Dropouts(hypot, samples, factor, median, i) && dropped == DroppedPoints(gaps)
      invariant i > 0 ==> cumulative == Travelled(hypot, samples, i - 1)
      invariant i == 0 ==> cumulative == 0.0
      invariant forall k :: 0 <= k < i ==>
                  Walked(hypot, samples, factor, median, k, frames[k], flagSets[k])
      invariant forall k :: i <= k < |samples| ==> flagSets[k] == {}
    {
      if i > 0 {
        var gap := hypot(samples[i - 1].point, samples[i].point);
        cumulative := cumulative + gap;
        if gap > Times(factor, median) && gap > 0.0 {
          var missing := Missing(gap, median);
          gaps := gaps + [DropoutGap(i - 1, gap, missing)];
          dropped := dropped + missing;
          flagSets[i] := flagSets[i] + {Dropout};
        }
      }
      frames[i] := Frame(i, samples[i].point.x, samples[i].point.y, cumulative, 0.0, []);
    }
  }

  method ListFlags(frames: array<Frame>, flagSets: array<set<Flag>>)
    requires frames.Length == flagSets.Length
    modifies frames
    ensures forall i :: 0 <= i < frames.Length ==>
              frames[i] == old(frames[i]).(flags := FlagList(old(flagSets[i])))
  {
    for i := 0 to frames.Length
      invariant forall k :: 0 <= k < i ==> frames[k] == old(frames[k]).(flags := FlagList(flagSets[k]))
      invariant forall k :: i <= k < frames.Length ==> frames[k] == old(frames[k])
    {
      var flags: seq<Flag> := [];
      if Dropout in flagSets[i] {
        flags := flags + [Dropout];
      }
      if Accuracy in flagSets[i] {
        flags := flags + [Accuracy];
      }
      if Repeated in flagSets[i] {
        flags := flags + [Repeated];
      }
      frames[i] := frames[i].(flags := flags);
    }
  }

  method BuildReplay(hypot: Hypot, lines: seq<Line>, swath: real, base: real,
                     startedAt: int, endedAt: int, params: Params)
    returns (r: Result<Snapshot, ReplayError>)
    ensures r == Replayed(hypot, lines, swath, base, startedAt, endedAt, params)
  {
    hide Flatten, Dropouts, Travelled, IsDropout, AccuracyAt, OverlapFlags, Touched, CellsRepeated,
         TooManyCells, MaxAccuracy, Anomalies, MedianGap, TotalLength, FlagList, DroppedPoints;
    if swath <= 0.0 {
      return Err(InvalidInput);
    }
    if params.resolution <= 0.0 {
      return Err(InvalidInput);
    }
    if params.window < 1 {
      return Err(InvalidInput);
    }
    var samples := FlattenSamples(lines);
    if |samples| < 2 {
      return Err(InvalidInput);
    }
    if |samples| > MAX_SAMPLES {
      return Err(TooManySamples);
    }
    var median := MedianSpacing(hypot, samples);
    var frames := new Frame[|samples|](i => Frame(0, 0.0, 0.0, 0.0, 0.0, []));
    var flagSets := new set<Flag>[|samples|](i => {});
    var gaps, dropped := WalkSamples(hypot, samples, frames, flagSets, params.dropoutFactor, median);
    var anomalies, maxAccuracy :=
      MarkAccuracy(hypot, samples, frames, flagSets, base, params.accuracyThreshold);
    var points := seq(|samples|, i requires 0 <= i < |samples| => samples[i].point);
    assert points == Points(samples);
    var raster, _ := MarkOverlap(points, swath, params.resolution, params.window, flagSets);
    if raster.Err? {
      return Err(ReplayError.GridTooLarge);
    }
    ListFlags(frames, flagSets);
    forall i | 0 <= i < |samples|
      ensures frames[i] == FrameAt(hypot, samples, swath, base, params, i)
    {
    }
    assert frames[..] == Frames(hypot, samples, swath, base, params);
    var length := TrackLength(hypot, lines);
    var covered, overlap := raster.value.covered, raster.value.overlap;
    var summary := Summary(|samples|, length, Minutes(startedAt, endedAt), dropped, |gaps|, gaps,
                           covered, overlap, Share(overlap, covered), anomalies,
                           params.accuracyThreshold, maxAccuracy, params.resolution);
    r := Ok(Snapshot(frames[..], summary));
  }
}
