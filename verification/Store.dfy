/** The repositories and services over mutable tables. Every service method serves one request
    exactly as the protocol does when nothing comes in between. */
module Store {
  import opened Euclid
  import opened Options
  import opened Rings
  import opened Coverage
  import CoverageLaws
  import opened States
  import opened Replay
  import opened Records
  import opened Services
  import opened Evolution
  import opened Invariant
  import opened Promises
  import opened Serving
  import opened Effects
  import opened Failures
  import opened Text

  /** A conditional update or insert: all of it happens, or nothing does. */
  ghost predicate Applied(change: Option<DB>, before: DB, after: DB, ok: bool) {
    match change
    case None => !ok && after == before
    case Some(db) => ok && after == db
  }

  class Database {
    const hypot: Hypot
    var areas: map<nat, AreaRow>
    var plans: map<nat, PlanRow>
    var runs: map<nat, RunRow>
    var gaps: map<nat, GapRow>
    var replays: map<nat, ReplayRow>
    var audits: seq<AuditRow>
    var next: nat

    ghost function State(): DB
      reads this
    {
      DB(areas, plans, runs, gaps, replays, audits, next)
    }

    ghost predicate Valid()
      reads this
    {
      DbOk(hypot, State())
    }

    constructor (distance: Hypot)
      ensures Valid() && State() == EMPTY && hypot == distance
    {
      hypot := distance;
      areas, plans, runs, gaps, replays := map[], map[], map[], map[], map[];
      audits, next := [], 1;
    }

    // ----- repositories

    method UpdateAreaRow(id: nat, expected: nat, fields: AreaFields) returns (ok: bool)
      modifies this`areas
      ensures Applied(UpdateArea(old(State()), id, expected, fields), old(State()), State(), ok)
    {
      ok := id in areas && areas[id].version == expected;
      if ok {
        areas := areas[id := areas[id].(fields := fields, version := areas[id].version + 1)];
      }
    }

    method UpdatePlanRow(id: nat, expected: nat, fields: PlanFields) returns (ok: bool)
      modifies this`plans
      ensures Applied(UpdatePlan(old(State()), id, expected, fields), old(State()), State(), ok)
    {
      ok := id in plans && plans[id].version == expected;
      if ok {
        plans := plans[id := plans[id].(fields := fields, version := plans[id].version + 1)];
      }
    }

    method TransitionPlan(id: nat, expected: nat, from: PlanState, to: PlanState) returns (ok: bool)
      modifies this`plans
      ensures Applied(MovePlan(old(State()), id, expected, from, to), old(State()), State(), ok)
    {
      ok := id in plans && plans[id].version == expected && plans[id].state == from;
      if ok {
        plans := plans[id := plans[id].(state := to, version := plans[id].version + 1)];
      }
    }

    method TransitionRun(id: nat, expected: nat, from: RunState, to: RunState) returns (ok: bool)
      modifies this`runs
      ensures Applied(MoveRun(old(State()), id, expected, from, to), old(State()), State(), ok)
    {
      ok := id in runs && runs[id].version == expected && runs[id].state == from;
      if ok {
        runs := runs[id := runs[id].(state := to, version := runs[id].version + 1)];
      }
    }

    method TransitionGap(id: nat, expected: nat, from: GapState, to: GapState, text: string) returns (ok: bool)
      modifies this`gaps
      ensures Applied(MoveGap(old(State()), id, expected, from, to, text), old(State()), State(), ok)
    {
      ok := id in gaps && gaps[id].version == expected && gaps[id].state == from && |text| <= MAX_EXPLANATION;
      if ok {
        gaps := gaps[id := gaps[id].(state := to, explanation := text, version := gaps[id].version + 1)];
      }
    }

    method CreateAreaRow(row: AreaRow) returns (ok: bool)
      modifies this`areas, this`next
      ensures Applied(InsertArea(old(State()), row), old(State()), State(), ok)
    {
      ok := !exists id :: id in areas && areas[id].code == row.code;
      if ok {
        areas, next := areas[next := row], next + 1;
      }
    }

    method CreatePlanRow(row: PlanRow) returns (ok: bool)
      modifies this`plans, this`next
      ensures Applied(InsertPlan(old(State()), row), old(State()), State(), ok)
    {
      ok := |row.fields.name| <= MAX_NAME;
      if ok {
        plans, next := plans[next := row], next + 1;
      }
    }

    method CreateRunRow(row: RunRow) returns (ok: bool)
      modifies this`runs, this`next
      ensures Applied(InsertRun(old(State()), row), old(State()), State(), ok)
    {
      ok := !exists id :: id in runs && (ChecksumOf(runs[id].data) == ChecksumOf(row.data) || runs[id].data.code == row.data.code);
      if ok {
        runs, next := runs[next := row], next + 1;
      }
    }

    method CreateGapRow(row: GapRow) returns (ok: bool)
      modifies this`gaps, this`next
      ensures Applied(InsertGap(old(State()), row), old(State()), State(), ok)
    {
      ok := !(exists id :: id in gaps && gaps[id].data.key == row.data.key) && |row.explanation| <= MAX_EXPLANATION;
      if ok {
        gaps, next := gaps[next := row], next + 1;
      }
    }

    method CreateReplayRow(row: ReplayRow) returns (ok: bool)
      modifies this`replays, this`next
      ensures Applied(InsertReplay(old(State()), row), old(State()), State(), ok)
    {
      ok := !exists id :: id in replays && replays[id].key == row.key;
      if ok {
        replays, next := replays[next := row], next + 1;
      }
    }

    method Record(entry: AuditRow)
      modifies this`audits
      ensures State() == old(State()).(audits := old(audits) + [entry])
    {
      audits := audits + [entry];
    }

    /** The rows with one of the given identifiers, in an order the database chooses. */
    method ByIds(ids: seq<nat>) returns (order: seq<nat>)
      ensures IsListing(order, ids, runs)
    {
      order := [];
      var pending := set id | id in ids && id in runs;
      while pending != {}
        invariant forall j, k :: 0 <= j < k < |order| ==> order[j] != order[k]
        invariant forall k :: 0 <= k < |order| ==> order[k] in ids && order[k] in runs && order[k] !in pending
        invariant forall id :: id in ids && id in runs ==> id in order || id in pending
        invariant forall id :: id in pending ==> id in ids && id in runs
        decreases |pending|
      {
        var id :| id in pending;
        pending := pending - {id};
        order := order + [id];
      }
    }

    method ByChecksum(checksum: Checksum) returns (found: Option<nat>)
      requires ChecksumsUnique(State())
      ensures found == RunByChecksum(State(), checksum)
    {
      if id :| id in runs && ChecksumOf(runs[id].data) == checksum {
        return Some(id);
      }
      return None;
    }

    method GapByInputHash(key: CoverageKey) returns (found: Option<nat>)
      requires GapKeysUnique(State())
      ensures found == GapByKey(State(), key)
    {
      if id :| id in gaps && gaps[id].data.key == key {
        return Some(id);
      }
      return None;
    }

    method ReplayByInputHash(key: ReplayKey) returns (found: Option<nat>)
      requires ReplayKeysUnique(State())
      ensures found == ReplayByKey(State(), key)
    {
      if id :| id in replays && replays[id].key == key {
        return Some(id);
      }
      return None;
    }

    // ----- survey areas

    method CreateArea(code: string, fields: AreaFields) returns (outcome: Outcome)
      requires Bound(CreateAreaRequest(code, fields))
      modifies this
      ensures Served(hypot, old(State()), CreateAreaRequest(code, fields), State(), outcome)
    {
      hide Served, ValidGeometry;
      ghost var a, request := State(), CreateAreaRequest(code, fields);
      var failure := CheckGeometry(fields);
      if failure.Some? {
        outcome := Failed(failure.value);
        ServedAtOnce(hypot, a, request, outcome);
        return;
      }
      var ok := CreateAreaRow(AreaRow(code, fields.(status := DraftArea), 1));
      outcome := if ok then Done else Failed(DuplicateResource);
      ServedInOne(hypot, a, request, [], State(), outcome);
    }

    method UpdateSurveyArea(id: nat, expected: nat, fields: AreaFields) returns (outcome: Outcome)
      requires Bound(UpdateAreaRequest(id, expected, fields))
      modifies this
      ensures Served(hypot, old(State()), UpdateAreaRequest(id, expected, fields), State(), outcome)
    {
      hide Served, ValidGeometry;
      ghost var a, request := State(), UpdateAreaRequest(id, expected, fields);
      if id !in areas {
        outcome := Failed(NotFound);
        ServedAtOnce(hypot, a, request, outcome);
        return;
      }
      if areas[id].fields.status == ArchivedArea {
        outcome := Failed(AreaArchived);
        ServedAtOnce(hypot, a, request, outcome);
        return;
      }
      var failure := CheckGeometry(fields);
      if failure.Some? {
        outcome := Failed(failure.value);
        ServedAtOnce(hypot, a, request, outcome);
        return;
      }
      var ok := UpdateAreaRow(id, expected, fields);
      outcome := if ok then Done else Failed(VersionConflict);
      ServedInOne(hypot, a, request, [], State(), outcome);
    }

    // ----- transect plans

    method CreatePlan(area: nat, plan: PlanFields) returns (outcome: Outcome)
      requires Bound(CreatePlanRequest(area, plan))
      modifies this
      ensures Served(hypot, old(State()), CreatePlanRequest(area, plan), State(), outcome)
    {
      hide Served, ValidLines;
      ghost var a, request := State(), CreatePlanRequest(area, plan);
      if area !in areas {
        outcome := Failed(NotFound);
      } else if areas[area].fields.status == ArchivedArea {
        outcome := Failed(AreaArchived);
      } else if !ValidLines(plan.lines) {
        outcome := Failed(GeometryInvalid);
      } else {
        var ok := CreatePlanRow(PlanRow(area, plan, DraftPlan, 1));
        outcome := if ok then Done else Failed(StorageFailed);
        ServedInOne(hypot, a, request, [], State(), outcome);
        return;
      }
      ServedAtOnce(hypot, a, request, outcome);
    }

    method UpdateTransectPlan(id: nat, expected: nat, plan: PlanFields) returns (outcome: Outcome)
      requires Bound(UpdatePlanRequest(id, expected, plan))
      modifies this
      ensures Served(hypot, old(State()), UpdatePlanRequest(id, expected, plan), State(), outcome)
    {
      hide Served, ValidLines;
      ghost var a, request := State(), UpdatePlanRequest(id, expected, plan);
      if id !in plans {
        outcome := Failed(NotFound);
      } else if plans[id].state != DraftPlan {
        outcome := Failed(PlanIsLocked);
      } else if !ValidLines(plan.lines) {
        outcome := Failed(GeometryInvalid);
      } else {
        var ok := UpdatePlanRow(id, expected, plan);
        outcome := if ok then Done else Failed(VersionConflict);
        ServedInOne(hypot, a, request, [], State(), outcome);
        return;
      }
      ServedAtOnce(hypot, a, request, outcome);
    }

    method LockPlan(id: nat, expected: nat) returns (outcome: Outcome)
      requires Bound(LockPlanRequest(id, expected))
      modifies this
      ensures Served(hypot, old(State()), LockPlanRequest(id, expected), State(), outcome)
    {
      hide Served;
      ghost var a, request := State(), LockPlanRequest(id, expected);
      if id !in plans {
        outcome := Failed(NotFound);
      } else if plans[id].state != DraftPlan {
        outcome := Failed(PlanStateInvalid);
      } else {
        var ok := TransitionPlan(id, expected, DraftPlan, LockedPlan);
        outcome := if ok then Done else Failed(VersionConflict);
        ServedInOne(hypot, a, request, [], State(), outcome);
        return;
      }
      ServedAtOnce(hypot, a, request, outcome);
    }

    method CopyPlan(id: nat) returns (outcome: Outcome)
      modifies this
      ensures Served(hypot, old(State()), CopyPlanRequest(id), State(), outcome)
    {
      hide Served;
      ghost var a, request := State(), CopyPlanRequest(id);
      if id !in plans {
        outcome := Failed(NotFound);
        ServedAtOnce(hypot, a, request, outcome);
      } else {
        var ok := CreatePlanRow(CopyOf(plans[id]));
        outcome := if ok then Done else Failed(StorageFailed);
        ServedInOne(hypot, a, request, [], State(), outcome);
      }
    }

    // ----- sonar runs

    method Import(data: RunData) returns (outcome: Outcome)
      requires Valid() && Bound(ImportRequest(data))
      modifies this
      ensures Served(hypot, old(State()), ImportRequest(data), State(), outcome)
    {
      hide Served, ValidLines, DbOk, Begin, Advance, RunByChecksum;
      ghost var a, request := State(), ImportRequest(data);
      BeginsImport(a, data);
      ImportAdvances(hypot, a, data);
      UniqueKeys(hypot, a);
      if data.plan !in plans {
        outcome := Failed(NotFound);
      } else if plans[data.plan].state != LockedPlan {
        outcome := Failed(PlanNotLocked);
      } else if !ValidLines(data.track) {
        outcome := Failed(GeometryInvalid);
      } else if data.endedAt <= data.startedAt {
        outcome := Failed(RunTimeInvalid);
      } else {
        var found := ByChecksum(ChecksumOf(data));
        if found.Some? {
          outcome := Existing(found.value);
          ServedInOne(hypot, a, request, [], a, outcome);
          return;
        }
        var ok := CreateRunRow(RunRow(data, Imported, 1));
        outcome := if ok then Done else Failed(DuplicateResource);
        ServedInTwo(hypot, a, request, [], a, ImportMissed(data), State(), outcome);
        return;
      }
      ServedAtOnce(hypot, a, request, outcome);
    }

    method MoveSonarRun(id: nat, expected: nat, target: RunState, reason: seq<bv8>) returns (outcome: Outcome)
      requires Bound(MoveRunRequest(id, expected, target, reason))
      modifies this
      ensures Served(hypot, old(State()), MoveRunRequest(id, expected, target, reason), State(), outcome)
    {
      hide Served;
      ghost var a, request := State(), MoveRunRequest(id, expected, target, reason);
      if id !in runs {
        outcome := Failed(NotFound);
      } else if !runs[id].state.CanTransition(target) {
        outcome := Failed(RunTransitionInvalid);
      } else if target == QualityChecked && runs[id].data.navigation == Invalid {
        outcome := Failed(NavigationInvalid);
      } else if target == Rejected && |reason| < 4 {
        outcome := Failed(ReasonRequired);
      } else {
        var ok := TransitionRun(id, expected, runs[id].state, target);
        outcome := if ok then Done else Failed(VersionConflict);
        ServedInOne(hypot, a, request, [], State(), outcome);
        return;
      }
      ServedAtOnce(hypot, a, request, outcome);
    }

    // ----- coverage gaps

    method Review(id: nat, expected: nat, target: GapState, note: string) returns (outcome: Outcome)
      requires Bound(ReviewRequest(id, expected, target, note))
      modifies this
      ensures Served(hypot, old(State()), ReviewRequest(id, expected, target, note), State(), outcome)
    {
      hide Served, Begin, Advance;
      ghost var a, request := State(), ReviewRequest(id, expected, target, note);
      BeginsReview(a, id, expected, target, note);
      if id !in gaps {
        outcome := Failed(NotFound);
      } else if !gaps[id].state.CanTransition(target) {
        outcome := Failed(GapTransitionInvalid);
      } else {
        var before := gaps[id];
        var text := WithNote(before.explanation, note);
        var ok := TransitionGap(id, expected, before.state, target, text);
        ghost var m := State();
        ReviewAdvances(hypot, a, id, expected, before, target, note);
        if !ok {
          var hit := gaps[id].version == expected;
          outcome := Failed(if hit then StorageFailed else VersionConflict);
          ServedInOne(hypot, a, request, [], m, outcome);
          return;
        }
        var updated := gaps[id];
        Record(AuditRow(id, before, updated));
        outcome := Done;
        ServedInThree(hypot, a, request, [], m, GapMoved(id, before, updated), m, GapReread(id, before, updated, updated),
                      State(), outcome);
        return;
      }
      ServedAtOnce(hypot, a, request, outcome);
    }

    /** Reads the listed runs one by one, stopping at the first that does not fit the area. */
    method CollectRuns(area: nat, order: seq<nat>) returns (failure: Option<Failure>, tracks: seq<Track>, checksums: seq<Checksum>)
      requires forall k :: 0 <= k < |order| ==> order[k] in runs
      ensures failure.Some? ==>
                && (exists k :: 0 <= k < |order| && Misfit(State(), area, order[k]))
                && failure.value == (if Misplaced(State(), area, order[FirstMisfit(State(), area, order, 0)])
                                     then RunAreaMismatch else RunNotProcessed)
      ensures failure.None? ==>
                && (forall k :: 0 <= k < |order| ==> !Misfit(State(), area, order[k]))
                && tracks == TracksOf(runs, order) && checksums == Checksums(runs, order)
    {
      hide ChecksumOf, TrackOf, TracksOf, Checksums, DbOk;
      tracks, checksums := [], [];
      NoneCollected(runs, order);
      for k := 0 to |order|
        invariant forall j :: 0 <= j < k ==> !Misfit(State(), area, order[j])
        invariant tracks == TracksOf(runs, order[..k]) && checksums == Checksums(runs, order[..k])
      {
        var run := runs[order[k]];
        if run.data.plan !in plans || plans[run.data.plan].area != area {
          assert Misfit(State(), area, order[k]);
          return Some(RunAreaMismatch), tracks, checksums;
        }
        if run.state != Processed {
          assert Misfit(State(), area, order[k]);
          return Some(RunNotProcessed), tracks, checksums;
        }
        OneMoreCollected(runs, order, k);
        tracks := tracks + [TrackOf(run)];
        checksums := checksums + [ChecksumOf(run.data)];
      }
      assert order[..|order|] == order;
      failure := None;
    }

    method Detect(header: seq<bv8>, area: nat, ids: seq<nat>, algorithm: string, requested: real) returns (outcome: Outcome)
      requires Valid() && Bound(DetectRequest(header, area, ids, algorithm, requested))
      modifies this
      ensures Served(hypot, old(State()), DetectRequest(header, area, ids, algorithm, requested), State(), outcome)
    {
      hide Served, Begin, Advance, DbOk, IsListing, ReadRuns, StoreGap, TracksOf, Checksums, Misfit, Misplaced, Assess;
      ghost var a, request := State(), DetectRequest(header, area, ids, algorithm, requested);
      BeginsDetect(a, header, area, ids, algorithm, requested);
      if !(8 <= |header| <= 120) {
        outcome := Failed(IdempotencyKeyRequired);
        ServedAtOnce(hypot, a, request, outcome);
        return;
      }
      if area !in areas {
        outcome := Failed(NotFound);
        ServedAtOnce(hypot, a, request, outcome);
        return;
      }
      var row := areas[area];
      if !ProjectedCRS(row.fields.crs) {
        outcome := Failed(CoordinateSystemInvalid);
        ServedAtOnce(hypot, a, request, outcome);
        return;
      }
      var order := ByIds(ids);
      var unique := UniqueIdList(ids);
      UniqueIdsMeaning(ids);
      ListingOfUnique(order, ids, runs);
      DetectAdvances(hypot, a, area, row, unique, order, algorithm, requested);
      if |order| != |unique| {
        outcome := Failed(RunSetIncomplete);
        ServedInOne(hypot, a, request, order, a, outcome);
        return;
      }
      Preservation.ListsExisting(order, unique, runs);
      var failure, tracks, checksums := CollectRuns(area, order);
      if failure.Some? {
        outcome := Failed(failure.value);
        ServedInOne(hypot, a, request, order, a, outcome);
        return;
      }
      var resolution := if requested == 0.0 then row.fields.resolution else requested;
      var key := CoverageKey(area, row.fields.crs, algorithm, multiset(checksums), resolution);
      ghost var ready := DetectReady(unique, order, tracks, key, row.fields.boundary);
      UniqueKeys(hypot, a);
      var found := GapByInputHash(key);
      KeyStep(hypot, a, unique, order, tracks, key, row.fields.boundary);
      if found.Some? {
        outcome := Existing(found.value);
        ServedInTwo(hypot, a, request, order, a, ready, a, outcome);
        return;
      }
      outcome := AnalyseAndStore(unique, tracks, key, row.fields.boundary);
      ServedInThree(hypot, a, request, order, a, ready, a, DetectMissed(unique, order, tracks, key, row.fields.boundary),
                    State(), outcome);
    }

    /** Runs the analysis and stores its figures, unless it fails. */
    method AnalyseAndStore(ids: seq<nat>, tracks: seq<Track>, key: CoverageKey, boundary: Polygon) returns (outcome: Outcome)
      modifies this`gaps, this`next
      ensures StoreGap(old(State()), ids, tracks, key, boundary) == (State(), Finished(outcome))
    {
      hide Assess, Analysed;
      var polygon := CheckPolygon(boundary);
      if !polygon {
        return Failed(GeometryInvalid);
      }
      PolygonHasVertices(boundary);
      var assessed := CalculateCoverage(boundary, tracks, key.resolution);
      if assessed.Err? {
        return Failed(CoverageInvalid);
      }
      var result := assessed.value;
      var data := GapData(ids, key, result, SeverityForRatio(result.gapRatio), boundary);
      assert key.resolution > 0.0 by { CoverageLaws.ResolutionPositive(boundary, tracks, key.resolution); }
      var text := Analysed(key.resolution, result.sampleCells, result.filteredFragments);
      var ok := CreateGapRow(GapRow(data, Detected, text, 1));
      outcome := if ok then Done else Failed(if |text| > MAX_EXPLANATION then StorageFailed else DuplicateResource);
    }

    // ----- run replays

    method CreateReplay(run: nat, options: ReplayOptions) returns (outcome: Outcome)
      requires Valid() && Bound(ReplayRequest(run, options))
      modifies this
      ensures Served(hypot, old(State()), ReplayRequest(run, options), State(), outcome)
    {
      hide Served, Begin, Advance, DbOk, StoreReplay, Flatten, Contains;
      ghost var a, request := State(), ReplayRequest(run, options);
      BeginsReplay(a, run, options);
      var failure, key := CheckReplay(run, options);
      if failure.Some? {
        outcome := Failed(failure.value);
        ServedAtOnce(hypot, a, request, outcome);
        return;
      }
      var row := runs[run];
      UniqueKeys(hypot, a);
      var found := ReplayByInputHash(key);
      ReplayAdvances(hypot, a, run, row, key);
      if found.Some? {
        outcome := Failed(ReplayDuplicate);
        ServedInOne(hypot, a, request, [], a, outcome);
        return;
      }
      outcome := BuildAndStore(run, row, key);
      ServedInTwo(hypot, a, request, [], a, ReplayMissed(run, row, key), State(), outcome);
    }

    /** Everything that is validated before a replay is looked up or computed. */
    method CheckReplay(run: nat, options: ReplayOptions) returns (failure: Option<Failure>, key: ReplayKey)
      ensures failure.Some? ==> BeginReplay(State(), run, options) == Finished(Failed(failure.value))
      ensures failure.None? ==> run in runs && BeginReplay(State(), run, options) == ReplayRead(run, runs[run], key)
    {
      hide Contains, Flatten, HasPart, ChecksumOf;
      key := ReplayKey(Checksum("", 0, 0, 0, 0), "", Params(0.0, 0.0, 0.0, 0), 0);
      if run !in runs {
        return Some(NotFound), key;
      }
      var row := runs[run];
      if row.state != Processed {
        return Some(RunNotProcessed), key;
      }
      if row.data.plan !in plans || plans[row.data.plan].area !in areas {
        return Some(RunAreaMissing), key;
      }
      var area := areas[plans[row.data.plan].area];
      if !ProjectedCRS(area.fields.crs) {
        return Some(CoordinateSystemInvalid), key;
      }
      var algorithm := if options.algorithm == "" then REPLAY_ALGORITHM else options.algorithm;
      if algorithm != REPLAY_ALGORITHM {
        return Some(AlgorithmUnsupported), key;
      }
      var actual := CountSamples(row.data.track);
      if !Admits(row.data.declared, actual) {
        return Some(SampleMissing), key;
      }
      if options.expected > 0 && options.expected != actual {
        return Some(SampleMissing), key;
      }
      var polygon := CheckPolygon(area.fields.boundary);
      if !polygon {
        return Some(GeometryInvalid), key;
      }
      var outside := FirstOutsideBoundary(row.data.track, area.fields.boundary);
      if outside.Some? {
        return Some(OutOfBounds), key;
      }
      key := ReplayKey(ChecksumOf(row.data), algorithm, ReplayParams(options, area.fields.resolution), options.expected);
      failure := None;
    }

    method BuildAndStore(run: nat, row: RunRow, key: ReplayKey) returns (outcome: Outcome)
      modifies this`replays, this`next
      ensures StoreReplay(hypot, old(State()), run, row, key) == (State(), Finished(outcome))
    {
      hide Replayed;
      var built := BuildReplay(hypot, row.data.track, row.data.swath, NavBaseAccuracy(row.data.navigation),
                               row.data.startedAt, row.data.endedAt, key.params);
      if built.Err? {
        return Failed(ReplayFailure(built.error));
      }
      var ok := CreateReplayRow(ReplayRow(run, key, built.value));
      outcome := if ok then Done else Failed(ReplayDuplicate);
    }

    // ----- any request

    /** Serves one request. It is done exactly when it is acceptable in the state it finds, and then
        it has written exactly the row it should; otherwise nothing changes, and its failure or the row it
        answers with tells the truth about what it found. Every invariant of the reachable states is
        kept. */
    method Handle(request: Request) returns (outcome: Outcome)
      requires Valid()
      modifies this
      ensures Served(hypot, old(State()), request, State(), outcome)
      ensures outcome == Done <==> Accepts(hypot, old(State()), request)
      ensures outcome == Done ==> Effect(hypot, old(State()), request, State())
      ensures outcome != Done ==> State() == old(State())
      ensures outcome.Failed? ==> Tells(old(State()), request, outcome.failure)
      ensures outcome.Existing? ==> Answered(old(State()), request, outcome.id)
      ensures Valid() && Evolves(old(State()), State())
    {
      hide Accepts, Served, DbOk, Evolves, Begin, Bound, Effect, Tells, Answered;
      ghost var a := State();
      if !Bound(request) {
        outcome := Failed(BadRequest);
        Unbound(hypot, a, request);
        ServedAtOnce(hypot, a, request, outcome);
      } else {
        match request
        case CreateAreaRequest(code, fields) => outcome := CreateArea(code, fields);
        case UpdateAreaRequest(id, expected, fields) => outcome := UpdateSurveyArea(id, expected, fields);
        case CreatePlanRequest(area, plan) => outcome := CreatePlan(area, plan);
        case UpdatePlanRequest(id, expected, plan) => outcome := UpdateTransectPlan(id, expected, plan);
        case LockPlanRequest(id, expected) => outcome := LockPlan(id, expected);
        case CopyPlanRequest(id) => outcome := CopyPlan(id);
        case ImportRequest(data) => outcome := Import(data);
        case MoveRunRequest(id, expected, target, reason) => outcome := MoveSonarRun(id, expected, target, reason);
        case DetectRequest(header, area, ids, algorithm, resolution) => outcome := Detect(header, area, ids, algorithm, resolution);
        case ReviewRequest(id, expected, target, note) => outcome := Review(id, expected, target, note);
        case ReplayRequest(run, options) => outcome := CreateReplay(run, options);
      }
      ServedKeeps(hypot, a, request, State(), outcome);
      ServedDecides(hypot, a, request, State(), outcome);
      match outcome
      case Done => ServedEffect(hypot, a, request, State());
      case Failed(failure) => FailureTells(hypot, a, request, State(), failure);
      case Existing(id) => ExistingTells(hypot, a, request, State(), id);
    }
  }

  lemma UniqueKeys(hypot: Hypot, db: DB)
    requires DbOk(hypot, db)
    ensures ChecksumsUnique(db) && GapKeysUnique(db) && ReplayKeysUnique(db)
  {
    hide GapsOk, ReplaysOk, RunsOk;
  }

  // ----- what the protocol does at each step of a detection and of a replay

  lemma BeginsDetect(db: DB, header: seq<bv8>, area: nat, ids: seq<nat>, algorithm: string, requested: real)
    requires Bound(DetectRequest(header, area, ids, algorithm, requested))
    ensures Begin(db, DetectRequest(header, area, ids, algorithm, requested))
         == if !(8 <= |header| <= 120) then Finished(Failed(IdempotencyKeyRequired))
            else if area !in db.areas then Finished(Failed(NotFound))
            else if !ProjectedCRS(db.areas[area].fields.crs) then Finished(Failed(CoordinateSystemInvalid))
            else DetectRead(area, db.areas[area], UniqueIds(ids), algorithm, requested)
  {
  }

  /** Repeating an identifier in the request does not change what is listed. */
  lemma ListingOfUnique(order: seq<nat>, ids: seq<nat>, runs: map<nat, RunRow>)
    requires IsListing(order, ids, runs)
    ensures IsListing(order, UniqueIds(ids), runs)
  {
    UniqueIdsMeaning(ids);
    hide UniqueIds;
    forall k | 0 <= k < |UniqueIds(ids)| && UniqueIds(ids)[k] in runs ensures UniqueIds(ids)[k] in order {
      var id := UniqueIds(ids)[k];
      assert id in ids;
      var j :| 0 <= j < |ids| && ids[j] == id;
    }
  }

  lemma DetectAdvances(hypot: Hypot, db: DB, area: nat, row: AreaRow, ids: seq<nat>, order: seq<nat>,
                       algorithm: string, requested: real)
    requires IsListing(order, ids, db.runs)
    ensures var resolution := if requested == 0.0 then row.fields.resolution else requested;
            var next := Advance(hypot, db, DetectRead(area, row, ids, algorithm, requested), order);
            && next.0 == db
            && (|order| != |ids| ==> next.1 == Finished(Failed(RunSetIncomplete)))
            && (|order| == |ids| && (exists k :: 0 <= k < |order| && Misfit(db, area, order[k])) ==>
                  next.1 == Finished(Failed(if Misplaced(db, area, order[FirstMisfit(db, area, order, 0)])
                                            then RunAreaMismatch else RunNotProcessed)))
            && (|order| == |ids| && !(exists k :: 0 <= k < |order| && Misfit(db, area, order[k])) ==>
                  next.1 == DetectReady(ids, order, TracksOf(db.runs, order),
                                        CoverageKey(area, row.fields.crs, algorithm, multiset(Checksums(db.runs, order)), resolution),
                                        row.fields.boundary))
  {
    hide Misfit, Misplaced, TracksOf, Checksums;
  }

  lemma BeginsReplay(db: DB, run: nat, options: ReplayOptions)
    requires Bound(ReplayRequest(run, options))
    ensures Begin(db, ReplayRequest(run, options)) == BeginReplay(db, run, options)
  {
    hide BeginReplay;
  }

  lemma ReplayAdvances(hypot: Hypot, db: DB, run: nat, row: RunRow, key: ReplayKey)
    ensures Advance(hypot, db, ReplayRead(run, row, key), [])
         == match ReplayByKey(db, key)
            case Some(_) => (db, Finished(Failed(ReplayDuplicate)))
            case None => (db, ReplayMissed(run, row, key))
    ensures Advance(hypot, db, ReplayMissed(run, row, key), []) == StoreReplay(hypot, db, run, row, key)
  {
    hide ReplayByKey, StoreReplay;
  }

  lemma NoneCollected(runs: map<nat, RunRow>, order: seq<nat>)
    ensures TracksOf(runs, order[..0]) == [] && Checksums(runs, order[..0]) == []
  {
  }

  lemma OneMoreCollected(runs: map<nat, RunRow>, order: seq<nat>, k: nat)
    requires k < |order| && forall j :: 0 <= j < |order| ==> order[j] in runs
    ensures TracksOf(runs, order[..k + 1]) == TracksOf(runs, order[..k]) + [TrackOf(runs[order[k]])]
    ensures Checksums(runs, order[..k + 1]) == Checksums(runs, order[..k]) + [ChecksumOf(runs[order[k]].data)]
  {
    hide TrackOf, ChecksumOf;
  }

  lemma BeginsImport(db: DB, data: RunData)
    requires Bound(ImportRequest(data))
    ensures Begin(db, ImportRequest(data))
         == if data.plan !in db.plans then Finished(Failed(NotFound))
            else if db.plans[data.plan].state != LockedPlan then Finished(Failed(PlanNotLocked))
            else if !ValidLines(data.track) then Finished(Failed(GeometryInvalid))
            else if data.endedAt <= data.startedAt then Finished(Failed(RunTimeInvalid))
            else ImportRead(data)
  {
    hide ValidLines;
  }

  lemma ImportAdvances(hypot: Hypot, db: DB, data: RunData)
    ensures Advance(hypot, db, ImportRead(data), [])
         == match RunByChecksum(db, ChecksumOf(data))
            case Some(id) => (db, Finished(Existing(id)))
            case None => (db, ImportMissed(data))
    ensures Advance(hypot, db, ImportMissed(data), [])
         == match InsertRun(db, RunRow(data, Imported, 1))
            case None => (db, Finished(Failed(DuplicateResource)))
            case Some(after) => (after, Finished(Done))
  {
    hide RunByChecksum, InsertRun;
  }

  lemma BeginsReview(db: DB, id: nat, expected: nat, target: GapState, note: string)
    requires Bound(ReviewRequest(id, expected, target, note))
    ensures Begin(db, ReviewRequest(id, expected, target, note))
         == if id !in db.gaps then Finished(Failed(NotFound))
            else if !db.gaps[id].state.CanTransition(target) then Finished(Failed(GapTransitionInvalid))
            else GapRead(id, expected, db.gaps[id], target, note)
  {
  }

  lemma ReviewAdvances(hypot: Hypot, db: DB, id: nat, expected: nat, before: GapRow, target: GapState, note: string)
    requires id in db.gaps
    ensures var moved := MoveGap(db, id, expected, before.state, target, WithNote(before.explanation, note));
            match moved
            case None =>
              var failure := if GapMatches(db, id, expected, before.state) then StorageFailed else VersionConflict;
              Advance(hypot, db, GapRead(id, expected, before, target, note), []) == (db, Finished(Failed(failure)))
            case Some(m) =>
              id in m.gaps && var row := m.gaps[id];
              && Advance(hypot, db, GapRead(id, expected, before, target, note), []) == (m, GapMoved(id, before, row))
              && Advance(hypot, m, GapMoved(id, before, row), []) == (m, GapReread(id, before, row, row))
              && Advance(hypot, m, GapReread(id, before, row, row), [])
                 == (m.(audits := m.audits + [AuditRow(id, before, row)]), Finished(Done))
  {
  }
}
