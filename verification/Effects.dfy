/** What each request leaves behind when it is served alone and done: which row is new or replaced, and
    everything that it holds. No other row changes. */
module Effects {
  import opened Euclid
  import opened Options
  import opened Rings
  import opened Coverage
  import opened CoverageLaws
  import opened States
  import opened Replay
  import opened Records
  import opened Services
  import opened Invariant
  import opened Preservation
  import opened Runs
  import opened Serving
  import opened Promises
  import opened Requirements
  import opened Text

  // ----- what is written

  /** The new gap: its runs without repetition, the figures of analysing them over the boundary of the area
      as it stands, detected at version 1, and an explanation that says what was analysed. */
  ghost predicate NewGap(a: DB, area: nat, runs: seq<nat>, algorithm: string, requested: real, row: GapRow) {
    && area in a.areas && (forall id :: id in runs ==> id in a.runs)
    && var fields, ids := a.areas[area].fields, row.data.sourceRuns;
       var res := Resolution(fields, requested);
       && NoRepeats(ids) && (forall id :: id in ids <==> id in runs)
       && row.data.key == CoverageKey(area, fields.crs, algorithm, multiset(Checksums(a.runs, ids)), res)
       && row.data.analysed == fields.boundary && |fields.boundary| > 0 && Vertices(fields.boundary) != {}
       && Assess(fields.boundary, TracksOf(a.runs, ids), res) == Ok(row.data.result)
       && row.data.severity == SeverityForRatio(row.data.result.gapRatio)
       && row.state == Detected && row.version == 1 && res > 0.0
       && row.explanation == Analysed(res, row.data.result.sampleCells, row.data.result.filteredFragments)
  }

  /** The new replay: the frames of the run's own lines, swath and times, from the base error of its
      navigation, with what was asked for and the defaults for what was not. */
  ghost predicate NewReplay(hypot: Hypot, a: DB, run: nat, options: ReplayOptions, row: ReplayRow) {
    && run in a.runs && a.runs[run].data.plan in a.plans && a.plans[a.runs[run].data.plan].area in a.areas
    && var data := a.runs[run].data;
       var asked := Asked(options, a.areas[a.plans[data.plan].area].fields);
       var base := if data.navigation == Good then 1.5 else if data.navigation == Degraded then 6.0 else 15.0;
       && row.run == run && row.key == ReplayKey(ChecksumOf(data), "replay-v1", asked, options.expected)
       && Replayed(hypot, data.track, data.swath, base, data.startedAt, data.endedAt, asked) == Ok(row.snapshot)
  }

  ghost predicate Effect(hypot: Hypot, a: DB, request: Request, b: DB) {
    match request
    case CreateAreaRequest(code, fields) =>
      b == a.(areas := a.areas[a.next := AreaRow(code, fields.(status := DraftArea), 1)], next := a.next + 1)
    case UpdateAreaRequest(id, expected, fields) =>
      id in a.areas && b == a.(areas := a.areas[id := AreaRow(a.areas[id].code, fields, expected + 1)])
    case CreatePlanRequest(area, plan) =>
      b == a.(plans := a.plans[a.next := PlanRow(area, plan, DraftPlan, 1)], next := a.next + 1)
    case UpdatePlanRequest(id, expected, plan) =>
      id in a.plans && b == a.(plans := a.plans[id := PlanRow(a.plans[id].area, plan, DraftPlan, expected + 1)])
    case LockPlanRequest(id, expected) =>
      id in a.plans && b == a.(plans := a.plans[id := PlanRow(a.plans[id].area, a.plans[id].fields, LockedPlan, expected + 1)])
    case CopyPlanRequest(id) =>
      id in a.plans
      && var fields := a.plans[id].fields.(name := a.plans[id].fields.name + " / 复制版本");
         b == a.(plans := a.plans[a.next := PlanRow(a.plans[id].area, fields, DraftPlan, a.plans[id].version + 1)],
                 next := a.next + 1)
    case ImportRequest(data) =>
      b == a.(runs := a.runs[a.next := RunRow(data, Imported, 1)], next := a.next + 1)
    case MoveRunRequest(id, expected, target, _) =>
      id in a.runs && b == a.(runs := a.runs[id := RunRow(a.runs[id].data, target, expected + 1)])
    case DetectRequest(_, area, runs, algorithm, requested) =>
      exists row :: NewGap(a, area, runs, algorithm, requested, row)
                    && b == a.(gaps := a.gaps[a.next := row], next := a.next + 1)
    case ReviewRequest(id, expected, target, note) =>
      id in a.gaps
      && var was := a.gaps[id];
         var row := GapRow(was.data, target, was.explanation + " 复核记录：" + note, expected + 1);
         b == a.(gaps := a.gaps[id := row], audits := a.audits + [AuditRow(id, was, row)])
    case ReplayRequest(run, options) =>
      exists row :: NewReplay(hypot, a, run, options, row) && b == a.(replays := a.replays[a.next := row], next := a.next + 1)
  }

  // ----- request by request

  lemma PlanningEffect(hypot: Hypot, a: DB, request: Request, order: seq<nat>, b: DB)
    requires request.CreateAreaRequest? || request.UpdateAreaRequest? || request.CreatePlanRequest?
             || request.UpdatePlanRequest? || request.LockPlanRequest? || request.CopyPlanRequest?
    requires Alone(hypot, a, Begin(a, request), order, 3) == (b, Finished(Done))
    ensures Effect(hypot, a, request, b)
  {
    hide Alone, ValidGeometry, ValidLines, BoundArea, BoundPlan, GeometryFailure;
    Unfolded(hypot, a, Begin(a, request), order);
  }

  lemma RunEffect(hypot: Hypot, a: DB, request: Request, order: seq<nat>, b: DB)
    requires request.ImportRequest? || request.MoveRunRequest?
    requires Alone(hypot, a, Begin(a, request), order, 3) == (b, Finished(Done))
    ensures Effect(hypot, a, request, b)
  {
    hide Alone, ValidLines, ChecksumOf;
    Unfolded(hypot, a, Begin(a, request), order);
  }

  lemma ReviewEffect(hypot: Hypot, a: DB, request: Request, order: seq<nat>, b: DB)
    requires request.ReviewRequest?
    requires Alone(hypot, a, Begin(a, request), order, 3) == (b, Finished(Done))
    ensures Effect(hypot, a, request, b)
  {
    hide Alone, ReadRuns, StoreGap, StoreReplay, BeginReplay, ValidGeometry, GeometryFailure, ValidLines, NewGap, NewReplay,
         BoundArea, BoundPlan, BoundOptions, CopyOf, UniqueIds;
    Unfolded(hypot, a, Begin(a, request), order);
  }

  lemma ReplayEffect(hypot: Hypot, a: DB, request: Request, order: seq<nat>, b: DB)
    requires DbOk(hypot, a) && request.ReplayRequest?
    requires Alone(hypot, a, Begin(a, request), order, 3) == (b, Finished(Done))
    ensures Effect(hypot, a, request, b)
  {
    hide Alone, BeginReplay, DbOk, Advance, Replayable, Replayed, ChecksumOf, ReplayParams, ReplayOf, NewReplay;
    var run, options := request.run, request.options;
    Unfolded(hypot, a, Begin(a, request), order);
    ReplayBegins(a, run, options);
    if !Bound(request) || !Replayable(a, run, options) {
      assert false;
    } else {
      RunRests(hypot, a, run);
      var row, key := a.runs[run], ReplayKeyFor(a, run, options);
      StoresReplay(hypot, a, run, row, key, order);
      KeyAsked(a, run, options);
      var stored := ReplayRow(run, key, ReplayOf(hypot, row, key.params).value);
      ReplayWritten(hypot, a, run, options, stored);
    }
  }

  lemma StoresReplay(hypot: Hypot, db: DB, run: nat, row: RunRow, key: ReplayKey, order: seq<nat>)
    ensures var a := Advance(hypot, db, ReplayRead(run, row, key), order);
            var b := Advance(hypot, a.0, a.1, order);
            Alone(hypot, db, ReplayRead(run, row, key), order, 3).1 == Finished(Done) ==>
              ReplayOf(hypot, row, key.params).Ok?
              && Alone(hypot, db, ReplayRead(run, row, key), order, 3).0
                 == db.(replays := db.replays[db.next := ReplayRow(run, key, ReplayOf(hypot, row, key.params).value)], next := db.next + 1)
  {
    hide Alone, ReplayOf;
    Unfolded(hypot, db, ReplayRead(run, row, key), order);
  }

  lemma KeyAsked(a: DB, run: nat, options: ReplayOptions)
    requires Replayable(a, run, options) && BoundOptions(options)
    ensures var data := a.runs[run].data;
            ReplayKeyFor(a, run, options)
            == ReplayKey(ChecksumOf(data), "replay-v1", Asked(options, a.areas[a.plans[data.plan].area].fields), options.expected)
  {
    hide ChecksumOf;
  }

  lemma ReplayWritten(hypot: Hypot, a: DB, run: nat, options: ReplayOptions, row: ReplayRow)
    requires run in a.runs && a.runs[run].data.plan in a.plans && a.plans[a.runs[run].data.plan].area in a.areas
    requires var data := a.runs[run].data;
             && row.run == run
             && row.key == ReplayKey(ChecksumOf(data), "replay-v1", Asked(options, a.areas[a.plans[data.plan].area].fields), options.expected)
             && ReplayOf(hypot, a.runs[run], row.key.params) == Ok(row.snapshot)
    ensures NewReplay(hypot, a, run, options, row)
  {
    hide Replayed, ChecksumOf;
  }

  lemma DetectEffect(hypot: Hypot, a: DB, request: Request, order: seq<nat>, b: DB)
    requires DbOk(hypot, a) && request.DetectRequest?
    requires Alone(hypot, a, Begin(a, request), order, 3) == (b, Finished(Done))
    ensures Effect(hypot, a, request, b)
  {
    hide Alone, DbOk, Advance, UniqueIds, IsListing, NewGap, HasPart, Detectable;
    Unfolded(hypot, a, Begin(a, request), order);
    if Bound(request) {
      DetectDecides(hypot, a, request, order);
    }
    var area, runs := request.area, request.runs;
    var ids := UniqueIds(runs);
    UniqueIdsMeaning(runs);
    if area in a.areas {
      if IsListing(order, ids, a.runs) {
        DetectWrites(hypot, a, area, runs, order, request.algorithm, request.resolution, b);
      } else {
        Unlisted(hypot, a, DetectRead(area, a.areas[area], ids, request.algorithm, request.resolution), order);
      }
    }
  }

  lemma DetectWrites(hypot: Hypot, a: DB, area: nat, runs: seq<nat>, order: seq<nat>, algorithm: string, requested: real, b: DB)
    requires DbOk(hypot, a) && area in a.areas && IsListing(order, UniqueIds(runs), a.runs)
    requires requested == 0.0 || 0.0 < requested <= 100.0
    requires Alone(hypot, a, DetectRead(area, a.areas[area], UniqueIds(runs), algorithm, requested), order, 3) == (b, Finished(Done))
    ensures exists row :: NewGap(a, area, runs, algorithm, requested, row)
                          && b == a.(gaps := a.gaps[a.next := row], next := a.next + 1)
  {
    hide DbOk, Alone, Advance, IsListing, NoRepeats, AllFit, TracksOf, Checksums, FreshGap, Assess, ReadRuns,
         ValidGeometry, StoreGap, Vertices, UniqueIds, NewGap, IsPolygon, Detectable;
    var ids := UniqueIds(runs);
    UniqueIdsMeaning(runs);
    AreaFacts(hypot, a, area);
    DetectSteps(hypot, a, area, ids, order, algorithm, requested);
    ReadRunsDecides(a, area, ids, order, algorithm, requested);
    var read := DetectRead(area, a.areas[area], ids, algorithm, requested);
    ReadStep(hypot, a, area, ids, order, algorithm, requested);
    Unfolded(hypot, a, read, order);
    DetectableFacts(a, area, ids, algorithm, requested);
    var key := RequestKey(a, area, ids, algorithm, requested);
    var boundary := a.areas[area].fields.boundary;
    KeyLookup(a, key);
    KeyStep(hypot, a, ids, order, TracksOf(a.runs, order), key, boundary);
    var row := GapWritten(a, ids, order, key, boundary, b);
    RowIsNew(a, area, runs, algorithm, requested, row);
  }

  lemma DetectableFacts(a: DB, area: nat, ids: seq<nat>, algorithm: string, requested: real)
    requires Detectable(a, area, ids, algorithm, requested)
    ensures area in a.areas && AllFit(a, area, ids) && FreshGap(a, RequestKey(a, area, ids, algorithm, requested))
  {
  }

  lemma GapWritten(a: DB, ids: seq<nat>, order: seq<nat>, key: CoverageKey, boundary: Polygon, b: DB) returns (row: GapRow)
    requires AllUsable(a.runs, order) && AllUsable(a.runs, ids) && multiset(order) == multiset(ids)
    requires StoreGap(a, ids, TracksOf(a.runs, order), key, boundary) == (b, Finished(Done))
    ensures b == a.(gaps := a.gaps[a.next := row], next := a.next + 1)
    ensures row.data.sourceRuns == ids && row.data.key == key && row.data.analysed == boundary
    ensures |boundary| > 0 && Vertices(boundary) != {} && key.resolution > 0.0
    ensures Assess(boundary, TracksOf(a.runs, ids), key.resolution) == Ok(row.data.result)
    ensures row.data.severity == SeverityForRatio(row.data.result.gapRatio) && row.state == Detected && row.version == 1
    ensures row.explanation == Analysed(key.resolution, row.data.result.sampleCells, row.data.result.filteredFragments)
  {
    hide Assess, TracksOf, Analysed, IsPolygon, SeverityForRatio, Vertices;
    if IsPolygon(boundary) {
      PolygonHasVertices(boundary);
      RunsPermuted(a.runs, order, ids);
      TracksPermuted(boundary, TracksOf(a.runs, order), TracksOf(a.runs, ids), key.resolution);
      var assessed := Assess(boundary, TracksOf(a.runs, order), key.resolution);
      if assessed.Ok? {
        assert key.resolution > 0.0 by { ResolutionPositive(boundary, TracksOf(a.runs, order), key.resolution); }
        var result := assessed.value;
        row := GapRow(GapData(ids, key, result, SeverityForRatio(result.gapRatio), boundary), Detected,
                      Analysed(key.resolution, result.sampleCells, result.filteredFragments), 1);
      }
    }
  }

  lemma RowIsNew(a: DB, area: nat, runs: seq<nat>, algorithm: string, requested: real, row: GapRow)
    requires area in a.areas && AllFit(a, area, UniqueIds(runs))
    requires var key, boundary := RequestKey(a, area, UniqueIds(runs), algorithm, requested), a.areas[area].fields.boundary;
             && row.data.sourceRuns == UniqueIds(runs) && row.data.key == key && row.data.analysed == boundary
             && |boundary| > 0 && Vertices(boundary) != {} && key.resolution > 0.0
             && Assess(boundary, TracksOf(a.runs, UniqueIds(runs)), key.resolution) == Ok(row.data.result)
             && row.data.severity == SeverityForRatio(row.data.result.gapRatio) && row.state == Detected && row.version == 1
             && row.explanation == Analysed(key.resolution, row.data.result.sampleCells, row.data.result.filteredFragments)
    ensures NewGap(a, area, runs, algorithm, requested, row)
  {
    hide Assess, TracksOf, Checksums, Analysed, SeverityForRatio, Vertices, UniqueIds, Misfit;
    UniqueIdsMeaning(runs);
    var ids := UniqueIds(runs);
    forall id | id in runs ensures id in a.runs {
      var k :| 0 <= k < |ids| && ids[k] == id;
    }
  }

  /** A request served alone and done has written exactly what it should, and nothing else. */
  lemma ServedEffect(hypot: Hypot, a: DB, request: Request, b: DB)
    requires DbOk(hypot, a) && Served(hypot, a, request, b, Done)
    ensures Effect(hypot, a, request, b)
  {
    hide DbOk, Begin, Alone, Effect, Advance;
    var order :| Alone(hypot, a, Begin(a, request), order, 3) == (b, Finished(Done));
    match request
    case CreateAreaRequest(_, _) => PlanningEffect(hypot, a, request, order, b);
    case UpdateAreaRequest(_, _, _) => PlanningEffect(hypot, a, request, order, b);
    case CreatePlanRequest(_, _) => PlanningEffect(hypot, a, request, order, b);
    case UpdatePlanRequest(_, _, _) => PlanningEffect(hypot, a, request, order, b);
    case LockPlanRequest(_, _) => PlanningEffect(hypot, a, request, order, b);
    case CopyPlanRequest(_) => PlanningEffect(hypot, a, request, order, b);
    case ImportRequest(_) => RunEffect(hypot, a, request, order, b);
    case MoveRunRequest(_, _, _, _) => RunEffect(hypot, a, request, order, b);
    case DetectRequest(_, _, _, _, _) => DetectEffect(hypot, a, request, order, b);
    case ReviewRequest(_, _, _, _) => ReviewEffect(hypot, a, request, order, b);
    case ReplayRequest(_, _) => ReplayEffect(hypot, a, request, order, b);
  }

  // ----- what a copy is for

  /** A copy, of a locked plan too, is a draft over the same lines: it can be edited at once and then
      locked, while the plan it was made of stays as it was. */
  lemma CopyCanBeEdited(hypot: Hypot, a: DB, id: nat, b: DB, plan: PlanFields)
    requires DbOk(hypot, a) && Served(hypot, a, CopyPlanRequest(id), b, Done) && GoodPlan(plan)
    ensures id in a.plans && id in b.plans && b.plans[id] == a.plans[id]
    ensures a.next in b.plans && a.next !in a.plans
    ensures b.plans[a.next].fields.lines == a.plans[id].fields.lines && b.plans[a.next].area == a.plans[id].area
    ensures Accepts(hypot, b, UpdatePlanRequest(a.next, b.plans[a.next].version, plan))
    ensures Accepts(hypot, b, LockPlanRequest(a.next, b.plans[a.next].version))
  {
    hide DbOk, Served, GoodPlan, Accepts;
    ServedEffect(hypot, a, CopyPlanRequest(id), b);
    PlanKeys(hypot, a, id);
    DraftAccepts(hypot, b, a.next, plan);
  }

  lemma DraftAccepts(hypot: Hypot, b: DB, id: nat, plan: PlanFields)
    requires id in b.plans && b.plans[id].state == DraftPlan && b.plans[id].version > 0 && GoodPlan(plan)
    ensures Accepts(hypot, b, UpdatePlanRequest(id, b.plans[id].version, plan))
    ensures Accepts(hypot, b, LockPlanRequest(id, b.plans[id].version))
  {
    GoodPlanIff(plan);
    hide GoodPlan, BoundPlan, ValidLines;
  }

  lemma PlanKeys(hypot: Hypot, db: DB, id: nat)
    requires DbOk(hypot, db)
    ensures id in db.plans ==> id < db.next
    ensures db.next !in db.plans
  {
    hide GapsOk, ReplaysOk, RunsOk, AreasOk;
  }
}
