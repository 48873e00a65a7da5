/** Exactly when each request served alone is done, in terms of the stored rows, the texts and the
    geometry that was sent. */
module Requirements {
  import opened Euclid
  import opened Options
  import opened Rings
  import opened Coverage
  import opened CoverageMeaning
  import opened States
  import opened Replay
  import opened ReplayMeaning
  import opened Records
  import opened Services
  import opened Invariant
  import opened Preservation
  import opened Serving
  import opened Promises
  import opened Detections
  import opened Text

  // ----- names of coordinate systems

  predicate PartAt(part: string, s: string, i: nat) {
    i + |part| <= |s| && s[i..i + |part|] == part
  }

  ghost predicate Occurs(part: string, s: string) {
    exists i: nat :: PartAt(part, s, i)
  }

  lemma {:induction false} HasPartIff(s: string, part: string)
    requires part != ""
    ensures HasPart(s, part) <==> Occurs(part, s)
  {
    if |part| <= |s| {
      assert part <= s <==> PartAt(part, s, 0);
      if !(part <= s) {
        HasPartIff(s[1..], part);
        if Occurs(part, s[1..]) {
          var i: nat :| PartAt(part, s[1..], i);
          assert s[i + 1..i + 1 + |part|] == s[1..][i..i + |part|];
          assert PartAt(part, s, i + 1);
        }
        if Occurs(part, s) {
          var i: nat :| PartAt(part, s, i);
          assert s[1..][i - 1..i - 1 + |part|] == s[i..i + |part|];
          assert PartAt(part, s[1..], i - 1);
        }
      }
    }
  }

  /** The name is not empty and names no coordinate system in degrees. */
  ghost predicate MetricName(crs: string) {
    crs != "" && !Occurs("4326", crs) && !Occurs("WGS84", crs) && !Occurs("WGS 84", crs)
  }

  lemma ProjectedIff(crs: string)
    ensures ProjectedCRS(crs) <==> MetricName(crs)
  {
    HasPartIff(crs, "4326");
    HasPartIff(crs, "WGS84");
    HasPartIff(crs, "WGS 84");
  }

  // ----- survey areas

  /** What an area may look like: a name, a metric coordinate system, a boundary of at least four
      positions and of positive area up to a thousand square kilometres, and sensible figures. */
  ghost predicate GoodArea(f: AreaFields) {
    && 3 <= |f.name| <= 160 && 2 <= |f.ownerTeam| <= 120 && 4 <= |f.crs| <= 80 && MetricName(f.crs)
    && 0.0 < f.resolution <= 100.0 && 0.0 < f.defaultSwath <= 2000.0
    && |f.boundary| > 0 && |f.boundary[0]| >= 4 && 0.0 < Area(f.boundary) <= 1000000000.0
  }

  lemma GoodAreaIff(f: AreaFields)
    ensures GoodArea(f) <==> BoundArea(f) && ValidGeometry(f)
  {
    ProjectedIff(f.crs);
    hide MetricName, ProjectedCRS, Area;
  }

  /** A new area needs good fields and a code not in use; an update of one needs good fields and an area
      that is not archived, in the expected version. */
  lemma AreaDoneIff(hypot: Hypot, a: DB, request: Request, b: DB, outcome: Outcome)
    requires DbOk(hypot, a) && Served(hypot, a, request, b, outcome)
    requires request.CreateAreaRequest? || request.UpdateAreaRequest?
    ensures outcome == Done <==>
              match request
              case CreateAreaRequest(code, fields) =>
                3 <= |code| <= 40 && GoodArea(fields) && forall id :: id in a.areas ==> a.areas[id].code != code
              case UpdateAreaRequest(id, expected, fields) =>
                && GoodArea(fields) && id in a.areas && a.areas[id].version == expected
                && a.areas[id].fields.status != ArchivedArea
              case _ => false
  {
    hide Served, DbOk, GoodArea, BoundArea, ValidGeometry;
    ServedDecides(hypot, a, request, b, outcome);
    GoodAreaIff(request.fields);
    if request.UpdateAreaRequest? && request.id in a.areas {
      AreaVersion(hypot, a, request.id);
    }
  }

  lemma AreaVersion(hypot: Hypot, a: DB, id: nat)
    requires DbOk(hypot, a) && id in a.areas
    ensures a.areas[id].version >= 1
  {
    AreaFacts(hypot, a, id);
    hide DbOk;
  }

  // ----- plans

  /** What a plan may look like: at least one line, each of two positions or more. */
  ghost predicate GoodPlan(p: PlanFields) {
    && 3 <= |p.name| <= 160 && 0.0 <= p.heading < 360.0 && 0.0 < p.swath <= 2000.0 && 0.0 < p.spacing <= 2000.0
    && p.lines != [] && forall line :: line in p.lines ==> |line| >= 2
  }

  lemma GoodPlanIff(p: PlanFields)
    ensures GoodPlan(p) <==> BoundPlan(p) && ValidLines(p.lines)
  {
  }

  /** A new plan needs an area that is not archived; an update and a lock need a draft in the expected
      version; a copy needs room for the longer name. */
  lemma PlanDoneIff(hypot: Hypot, a: DB, request: Request, b: DB, outcome: Outcome)
    requires DbOk(hypot, a) && Served(hypot, a, request, b, outcome)
    requires request.CreatePlanRequest? || request.UpdatePlanRequest? || request.LockPlanRequest? || request.CopyPlanRequest?
    ensures outcome == Done <==>
              match request
              case CreatePlanRequest(area, plan) =>
                area > 0 && area in a.areas && a.areas[area].fields.status != ArchivedArea && GoodPlan(plan)
              case UpdatePlanRequest(id, expected, plan) =>
                id in a.plans && a.plans[id].state == DraftPlan && a.plans[id].version == expected && GoodPlan(plan)
              case LockPlanRequest(id, expected) =>
                id in a.plans && a.plans[id].state == DraftPlan && a.plans[id].version == expected
              case CopyPlanRequest(id) => id in a.plans && |a.plans[id].fields.name| + 7 <= 160
              case _ => false
  {
    hide Served, DbOk, GoodPlan, BoundPlan, ValidLines;
    ServedDecides(hypot, a, request, b, outcome);
    match request
    case CreatePlanRequest(_, plan) => GoodPlanIff(plan);
    case UpdatePlanRequest(id, _, plan) =>
      GoodPlanIff(plan);
      if id in a.plans { PlanFacts(hypot, a, id); }
    case LockPlanRequest(id, _) => if id in a.plans { PlanFacts(hypot, a, id); }
    case CopyPlanRequest(id) =>
  }

  // ----- imports

  /** The same track for the same plan and times, its swath the same to a millimetre. */
  predicate SameSource(s: RunData, t: RunData) {
    && s.source == t.source && s.plan == t.plan && s.startedAt == t.startedAt && s.endedAt == t.endedAt
    && RoundHalfEven(s.swath * 1000.0) == RoundHalfEven(t.swath * 1000.0)
  }

  /** An import needs a locked plan, lines of two positions or more, an end after its start, and a code
      and a source not yet stored. */
  lemma ImportDoneIff(hypot: Hypot, a: DB, data: RunData, b: DB, outcome: Outcome)
    requires DbOk(hypot, a) && Served(hypot, a, ImportRequest(data), b, outcome)
    ensures outcome == Done <==>
              && data.plan > 0 && 3 <= |data.code| <= 48 && 0.0 < data.swath <= 2000.0
              && data.plan in a.plans && a.plans[data.plan].state == LockedPlan
              && data.track != [] && (forall line :: line in data.track ==> |line| >= 2)
              && data.startedAt < data.endedAt
              && forall id :: id in a.runs ==> a.runs[id].data.code != data.code && !SameSource(a.runs[id].data, data)
  {
    hide Served, DbOk, RoundHalfEven;
    ServedDecides(hypot, a, ImportRequest(data), b, outcome);
  }

  // ----- detections

  /** Every run exists, flew a plan of the area, and is processed. */
  ghost predicate RunsReady(db: DB, area: nat, runs: seq<nat>) {
    forall id :: id in runs ==>
      && id in db.runs && db.runs[id].state == Processed
      && db.runs[id].data.plan in db.plans && db.plans[db.runs[id].data.plan].area == area
  }

  lemma RunsReadyIff(db: DB, area: nat, runs: seq<nat>)
    ensures RunsReady(db, area, runs) <==> AllFit(db, area, UniqueIds(runs))
  {
    UniqueIdsMeaning(runs);
    var ids := UniqueIds(runs);
    hide UniqueIds, NoRepeats;
    if AllFit(db, area, ids) {
      forall id | id in runs
        ensures id in db.runs && db.runs[id].state == Processed
        ensures db.runs[id].data.plan in db.plans && db.plans[db.runs[id].data.plan].area == area
      {
        var k :| 0 <= k < |ids| && ids[k] == id;
        assert !Misfit(db, area, ids[k]);
      }
    }
    if RunsReady(db, area, runs) {
      forall k | 0 <= k < |ids| ensures ids[k] in db.runs && !Misfit(db, area, ids[k]) {
        assert ids[k] in runs;
      }
    }
  }

  function Resolution(fields: AreaFields, requested: real): real {
    if requested == 0.0 then fields.resolution else requested
  }

  /** No gap of the area was detected with this algorithm, coordinate system and resolution from runs
      of these checksums. */
  ghost predicate NotDetected(db: DB, area: nat, runs: seq<nat>, algorithm: string, resolution: real)
    requires area in db.areas && RunsReady(db, area, runs)
  {
    RunsReadyIff(db, area, runs);
    forall g :: g in db.gaps ==>
      var key := db.gaps[g].data.key;
      !(&& key.area == area && key.crs == db.areas[area].fields.crs && key.algorithm == algorithm
        && key.checksums == multiset(Checksums(db.runs, UniqueIds(runs))) && key.resolution == resolution)
  }

  ghost predicate DetectWellFormed(header: seq<bv8>, area: nat, runs: seq<nat>, algorithm: string, requested: real) {
    && 8 <= |header| <= 120 && 3 <= |algorithm| <= 40 && area > 0 && runs != [] && (forall id :: id in runs ==> id > 0)
    && (requested == 0.0 || 0.0 < requested <= 100.0)
  }

  lemma DetectBound(header: seq<bv8>, area: nat, runs: seq<nat>, algorithm: string, requested: real)
    ensures DetectWellFormed(header, area, runs, algorithm, requested) <==>
              8 <= |header| <= 120 && Bound(DetectRequest(header, area, runs, algorithm, requested))
  {
    if forall id :: id in runs ==> id > 0 {
      forall k | 0 <= k < |runs| ensures runs[k] > 0 {
        assert runs[k] in runs;
      }
    }
  }

  /** A detection needs its runs, each processed and flown for a plan of the area, a key not stored yet,
      and a boundary that no more than 60000 cells span and that contains the centre of one. */
  lemma DetectDoneIff(hypot: Hypot, a: DB, header: seq<bv8>, area: nat, runs: seq<nat>, algorithm: string, requested: real,
                      columns: int, rows: int, b: DB, outcome: Outcome)
    requires DbOk(hypot, a) && Served(hypot, a, DetectRequest(header, area, runs, algorithm, requested), b, outcome)
    requires area in a.areas ==> PolygonVertices(a.areas[area].fields.boundary)
    requires area in a.areas && Resolution(a.areas[area].fields, requested) > 0.0 ==>
               Spans(a.areas[area].fields.boundary, Resolution(a.areas[area].fields, requested), columns, rows)
    ensures outcome == Done <==>
              && DetectWellFormed(header, area, runs, algorithm, requested)
              && area in a.areas && RunsReady(a, area, runs)
              && var boundary, res := a.areas[area].fields.boundary, Resolution(a.areas[area].fields, requested);
                 && NotDetected(a, area, runs, algorithm, res)
                 && columns * rows <= 60000 && exists c :: Contains(boundary, Centre(Bounds(boundary), res, c))
  {
    hide Served, DbOk, Spans, Bound, Assess, RunsReady, AllFit, Contains, Bounds, Vertices, Detectable, DetectWellFormed,
         NotDetected, Centre;
    ServedDecides(hypot, a, DetectRequest(header, area, runs, algorithm, requested), b, outcome);
    DetectBound(header, area, runs, algorithm, requested);
    if area in a.areas && DetectWellFormed(header, area, runs, algorithm, requested) {
      DetectableIff(hypot, a, header, area, runs, algorithm, requested, columns, rows);
    } else {
      NoArea(a, area, UniqueIds(runs), algorithm, requested);
    }
  }

  lemma DetectableIff(hypot: Hypot, a: DB, header: seq<bv8>, area: nat, runs: seq<nat>, algorithm: string, requested: real,
                      columns: int, rows: int)
    requires DbOk(hypot, a) && area in a.areas && DetectWellFormed(header, area, runs, algorithm, requested)
    requires PolygonVertices(a.areas[area].fields.boundary)
    requires Resolution(a.areas[area].fields, requested) > 0.0 ==>
               Spans(a.areas[area].fields.boundary, Resolution(a.areas[area].fields, requested), columns, rows)
    ensures var boundary, res := a.areas[area].fields.boundary, Resolution(a.areas[area].fields, requested);
            Detectable(a, area, UniqueIds(runs), algorithm, requested) <==>
              && RunsReady(a, area, runs) && NotDetected(a, area, runs, algorithm, res)
              && columns * rows <= 60000 && exists c :: Contains(boundary, Centre(Bounds(boundary), res, c))
  {
    var boundary, res := a.areas[area].fields.boundary, Resolution(a.areas[area].fields, requested);
    RunsReadyIff(a, area, runs);
    if RunsReady(a, area, runs) {
      SomeRun(runs);
      ResolutionOk(hypot, a, area, requested);
      hide DbOk, Spans, Assess, RunsReady, AllFit, Contains, Bounds, Vertices, UniqueIds, TracksOf, Checksums, Centre, IsPolygon;
      var tracks := TracksOf(a.runs, UniqueIds(runs));
      assert tracks != [] by { SomeTracks(a.runs, UniqueIds(runs)); }
      PolygonOutcome(boundary, tracks, res, columns, rows);
      FreshIff(a, area, runs, algorithm, requested);
    }
  }

  lemma SomeRun(runs: seq<nat>)
    requires runs != []
    ensures UniqueIds(runs) != []
  {
    UniqueIdsMeaning(runs);
    assert runs[0] in UniqueIds(runs);
  }

  lemma SomeTracks(runs: map<nat, RunRow>, ids: seq<nat>)
    requires ids != [] && forall k :: 0 <= k < |ids| ==> ids[k] in runs
    ensures TracksOf(runs, ids) != []
  {
  }

  lemma ResolutionOk(hypot: Hypot, a: DB, area: nat, requested: real)
    requires DbOk(hypot, a) && area in a.areas && (requested == 0.0 || 0.0 < requested <= 100.0)
    ensures Resolution(a.areas[area].fields, requested) > 0.0 && IsPolygon(a.areas[area].fields.boundary)
  {
    AreaFacts(hypot, a, area);
    hide DbOk;
  }

  lemma FreshIff(a: DB, area: nat, runs: seq<nat>, algorithm: string, requested: real)
    requires area in a.areas && RunsReady(a, area, runs) && AllFit(a, area, UniqueIds(runs))
    ensures FreshGap(a, RequestKey(a, area, UniqueIds(runs), algorithm, requested))
       <==> NotDetected(a, area, runs, algorithm, Resolution(a.areas[area].fields, requested))
  {
    hide Checksums, UniqueIds, RunsReady, AllFit;
  }

  // ----- replays

  lemma {:induction false} SampleOf(lines: seq<Line>, n: nat) returns (l: nat, i: nat)
    requires n < |Flatten(lines)|
    ensures l < |lines| && i < |lines[l]| && Flatten(lines)[n].point == lines[l][i]
  {
    var last := |lines| - 1;
    if n < |Flatten(lines[..last])| {
      l, i := SampleOf(lines[..last], n);
    } else {
      l, i := last, n - |Flatten(lines[..last])|;
    }
  }

  ghost predicate AllWithin(boundary: Polygon, lines: seq<Line>)
    requires |boundary| > 0
  {
    forall l, i :: 0 <= l < |lines| && 0 <= i < |lines[l]| ==> Contains(boundary, lines[l][i])
  }

  lemma AllWithinIff(boundary: Polygon, lines: seq<Line>)
    requires |boundary| > 0
    ensures AllWithin(boundary, lines) <==> forall k :: 0 <= k < |Flatten(lines)| ==> Contains(boundary, Flatten(lines)[k].point)
  {
    hide Contains, Flatten;
    if AllWithin(boundary, lines) {
      forall k | 0 <= k < |Flatten(lines)| ensures Contains(boundary, Flatten(lines)[k].point) {
        var l, i := SampleOf(lines, k);
      }
    }
    if forall k :: 0 <= k < |Flatten(lines)| ==> Contains(boundary, Flatten(lines)[k].point) {
      forall l, i | 0 <= l < |lines| && 0 <= i < |lines[l]| ensures Contains(boundary, lines[l][i]) {
        SampleAt(lines, l, i);
        assert Contains(boundary, Flatten(lines)[VerticesBefore(lines, l) + i].point);
      }
    }
  }

  /** The parameters of a replay: what was asked for, and the default for what was not. */
  function Asked(options: ReplayOptions, area: AreaFields): Params {
    Params(if options.dropoutFactor == 0.0 then 2.5 else options.dropoutFactor,
           if options.accuracyThreshold == 0.0 then 10.0 else options.accuracyThreshold,
           if options.resolution == 0.0 then area.resolution else options.resolution, 3)
  }

  ghost predicate ReplayWellFormed(run: nat, o: ReplayOptions) {
    && run > 0 && (o.algorithm == "" || o.algorithm == "replay-v1") && o.expected >= 0
    && (o.dropoutFactor == 0.0 || 1.5 <= o.dropoutFactor <= 10.0)
    && (o.accuracyThreshold == 0.0 || 0.0 < o.accuracyThreshold <= 200.0)
    && (o.resolution == 0.0 || 0.0 < o.resolution <= 100.0)
  }

  lemma ReplayBound(run: nat, o: ReplayOptions)
    ensures ReplayWellFormed(run, o) <==>
              Bound(ReplayRequest(run, o)) && (o.algorithm == "" || o.algorithm == REPLAY_ALGORITHM)
  {
    hide BoundArea, BoundPlan;
  }

  /** In a database the invariants allow, the plan and the area of every run exist, and hold what a replay
      relies on. */
  lemma RunRests(hypot: Hypot, db: DB, run: nat)
    requires DbOk(hypot, db) && run in db.runs
    ensures var data := db.runs[run].data;
            && data.plan in db.plans && db.plans[data.plan].area in db.areas && DataOk(data)
            && var fields := db.areas[db.plans[data.plan].area].fields;
               fields.resolution > 0.0 && IsPolygon(fields.boundary) && ProjectedCRS(fields.crs)
  {
    hide KeysOk, GapsOk, ReplaysOk, GapKeysUnique, ReplayKeysUnique, ChecksumsUnique, IsPolygon, ProjectedCRS;
    assert RunOk(db, db.runs[run]);
    PlanFacts(hypot, db, db.runs[run].data.plan);
    assert AreaOk(db.areas[db.plans[db.runs[run].data.plan].area]);
  }

  lemma EnoughVertices(lines: seq<Line>)
    requires ValidLines(lines)
    ensures VerticesBefore(lines, |lines|) >= 2
  {
    AtLeastTwo(lines, |lines|);
  }

  lemma {:induction false} AtLeastTwo(lines: seq<Line>, l: nat)
    requires ValidLines(lines) && l <= |lines|
    ensures VerticesBefore(lines, l) >= 2 * l
  {
    if l > 0 {
      AtLeastTwo(lines, l - 1);
    }
  }

  /** More than a replay can take: too many vertices, or swath circles of too many cells. */
  ghost predicate TooBig(data: RunData, resolution: real) {
    var n := VerticesBefore(data.track, |data.track|);
    var circle, cell := 3.14159265358979323846 * (data.swath / 2.0 * (data.swath / 2.0)), resolution * resolution;
    n > 5000 || circle > 5000.0 * cell || n as real * circle > 2000000.0 * cell
  }

  /** A replay of a stored run never fails for want of something to replay. */
  lemma ReplayOfStored(hypot: Hypot, row: RunRow, params: Params)
    requires DataOk(row.data) && params.resolution > 0.0 && params.window >= 1
    ensures ReplayOf(hypot, row, params).Ok? <==> !TooBig(row.data, params.resolution)
    ensures ReplayOf(hypot, row, params) != Err(InvalidInput)
  {
    hide Replayed;
    EnoughVertices(row.data.track);
    ReplayOutcome(hypot, row.data.track, row.data.swath, NavBaseAccuracy(row.data.navigation), row.data.startedAt,
                  row.data.endedAt, params);
  }

  /** The samples are as many as the track file and the request claim. */
  predicate CountAgrees(declared: Declared, expected: int, n: nat) {
    (declared == Absent || declared == Claimed(n as real)) && (expected == 0 || expected == n)
  }

  /** The run is processed, has as many samples as claimed, all inside the boundary, no stored replay of
      the same source with the same parameters, and not too many vertices or cells. */
  ghost predicate ReplayReady(a: DB, run: nat, options: ReplayOptions) {
    && ReplayWellFormed(run, options) && run in a.runs && a.runs[run].state == Processed
    && a.runs[run].data.plan in a.plans && a.plans[a.runs[run].data.plan].area in a.areas
    && var data := a.runs[run].data;
       var area := a.areas[a.plans[data.plan].area].fields;
       && CountAgrees(data.declared, options.expected, VerticesBefore(data.track, |data.track|))
       && |area.boundary| > 0 && AllWithin(area.boundary, data.track) && !TooBig(data, Asked(options, area).resolution)
       && forall id :: id in a.replays ==>
            a.replays[id].key != ReplayKey(ChecksumOf(data), "replay-v1", Asked(options, area), options.expected)
  }

  /** That is all a replay needs. */
  lemma ReplayDoneIff(hypot: Hypot, a: DB, run: nat, options: ReplayOptions, b: DB, outcome: Outcome)
    requires DbOk(hypot, a) && Served(hypot, a, ReplayRequest(run, options), b, outcome)
    ensures outcome == Done <==> ReplayReady(a, run, options)
  {
    hide Served, DbOk, Bound, ReplayOf, AllWithin, TooBig, Replayable, ReplayWellFormed, ChecksumOf, VerticesBefore, CountAgrees;
    ServedDecides(hypot, a, ReplayRequest(run, options), b, outcome);
    ReplayBound(run, options);
    if run in a.runs {
      RunRests(hypot, a, run);
      ReplayableIff(hypot, a, run, options);
      if ReplayWellFormed(run, options) {
        AskedAre(options, a.areas[a.plans[a.runs[run].data.plan].area].fields, run);
        ReplayOfStored(hypot, a.runs[run], Asked(options, a.areas[a.plans[a.runs[run].data.plan].area].fields));
      }
    } else {
      NoRun(a, run, options);
    }
  }

  lemma NoRun(db: DB, run: nat, options: ReplayOptions)
    requires run !in db.runs
    ensures !Replayable(db, run, options)
  {
  }

  lemma AskedAre(options: ReplayOptions, area: AreaFields, run: nat)
    requires ReplayWellFormed(run, options) && area.resolution > 0.0
    ensures ReplayParams(options, area.resolution) == Asked(options, area) && Asked(options, area).resolution > 0.0
    ensures options.expected >= 0
  {
  }

  lemma ReplayableIff(hypot: Hypot, a: DB, run: nat, options: ReplayOptions)
    requires DbOk(hypot, a) && run in a.runs
    ensures var data := a.runs[run].data;
            && data.plan in a.plans && a.plans[data.plan].area in a.areas
            && var area := a.areas[a.plans[data.plan].area].fields;
               && |area.boundary| > 0
               && (Replayable(a, run, options) ==> options.algorithm == "" || options.algorithm == REPLAY_ALGORITHM)
               && (options.expected >= 0 ==>
                     (Replayable(a, run, options) <==>
                       && a.runs[run].state == Processed && (options.algorithm == "" || options.algorithm == "replay-v1")
                       && CountAgrees(data.declared, options.expected, VerticesBefore(data.track, |data.track|))
                       && AllWithin(area.boundary, data.track)))
  {
    hide DbOk, AllWithin, Contains, Flatten, VerticesBefore, DataOk, ProjectedCRS, IsPolygon, Vertices;
    RunRests(hypot, a, run);
    var data := a.runs[run].data;
    var area := a.areas[a.plans[data.plan].area].fields;
    SampleCount(data.track);
    PolygonHasVertices(area.boundary);
    AllWithinIff(area.boundary, data.track);
  }
}
