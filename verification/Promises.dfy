/** What the caller of a request may rely on when nothing comes in between: exactly when it is done,
    and that otherwise nothing has changed. */
module Promises {
  import opened Euclid
  import opened Rings
  import opened Coverage
  import opened CoverageLaws
  import opened States
  import opened Replay
  import opened Records
  import opened Services
  import opened Invariant
  import opened Preservation
  import opened Runs
  import opened Serving
  import opened Text

  // ----- when a request is done

  ghost predicate FreshCode(db: DB, code: string) {
    forall id :: id in db.areas ==> db.areas[id].code != code
  }

  ghost predicate FreshRun(db: DB, data: RunData) {
    forall id :: id in db.runs ==> ChecksumOf(db.runs[id].data) != ChecksumOf(data) && db.runs[id].data.code != data.code
  }

  ghost predicate OpenArea(db: DB, id: nat) {
    id in db.areas && db.areas[id].fields.status != ArchivedArea
  }

  /** Every requested run exists, flew a plan of the area, and is processed. */
  ghost predicate AllFit(db: DB, area: nat, ids: seq<nat>) {
    forall k :: 0 <= k < |ids| ==> ids[k] in db.runs && !Misfit(db, area, ids[k])
  }

  ghost function RequestKey(db: DB, area: nat, ids: seq<nat>, algorithm: string, requested: real): CoverageKey
    requires area in db.areas && AllFit(db, area, ids)
  {
    var fields := db.areas[area].fields;
    CoverageKey(area, fields.crs, algorithm, multiset(Checksums(db.runs, ids)),
                if requested == 0.0 then fields.resolution else requested)
  }

  /** True of every polygon, and what an analysis needs to be asked. */
  ghost predicate PolygonVertices(b: Polygon) {
    |b| > 0 && Vertices(b) != {}
  }

  /** The detection finds its runs, its key is new, and the analysis succeeds. */
  ghost predicate Detectable(db: DB, area: nat, ids: seq<nat>, algorithm: string, requested: real) {
    && area in db.areas && AllFit(db, area, ids)
    && var key := RequestKey(db, area, ids, algorithm, requested);
       var boundary := db.areas[area].fields.boundary;
       && FreshGap(db, key)
       && IsPolygon(boundary)
       && PolygonVertices(boundary)
       && Assess(boundary, TracksOf(db.runs, ids), key.resolution).Ok?
  }

  /** The run is processed, its area known, its samples as many as claimed and all inside. */
  ghost predicate Replayable(db: DB, run: nat, options: ReplayOptions) {
    && run in db.runs && db.runs[run].state == Processed
    && var data := db.runs[run].data;
       var samples := Flatten(data.track);
       && data.plan in db.plans && db.plans[data.plan].area in db.areas
       && var fields := db.areas[db.plans[data.plan].area].fields;
          && ProjectedCRS(fields.crs) && (options.algorithm == "" || options.algorithm == REPLAY_ALGORITHM)
          && Admits(data.declared, |samples|) && (options.expected > 0 ==> options.expected == |samples|)
          && IsPolygon(fields.boundary)
          && forall k :: 0 <= k < |samples| ==> Contains(fields.boundary, samples[k].point)
  }

  ghost function ReplayKeyFor(db: DB, run: nat, options: ReplayOptions): ReplayKey
    requires Replayable(db, run, options)
  {
    var data := db.runs[run].data;
    ReplayKey(ChecksumOf(data), REPLAY_ALGORITHM,
              ReplayParams(options, db.areas[db.plans[data.plan].area].fields.resolution), options.expected)
  }

  ghost predicate Accepts(hypot: Hypot, db: DB, request: Request) {
    Bound(request) &&
    match request
    case CreateAreaRequest(code, fields) => ValidGeometry(fields) && FreshCode(db, code)
    case UpdateAreaRequest(id, expected, fields) =>
      OpenArea(db, id) && ValidGeometry(fields) && db.areas[id].version == expected
    case CreatePlanRequest(area, plan) => OpenArea(db, area) && ValidLines(plan.lines)
    case UpdatePlanRequest(id, expected, plan) =>
      && id in db.plans && db.plans[id].state == DraftPlan && ValidLines(plan.lines)
      && db.plans[id].version == expected
    case LockPlanRequest(id, expected) =>
      id in db.plans && db.plans[id].state == DraftPlan && db.plans[id].version == expected
    case CopyPlanRequest(id) => id in db.plans && |db.plans[id].fields.name + COPY_MARK| <= MAX_NAME
    case ImportRequest(data) =>
      && data.plan in db.plans && db.plans[data.plan].state == LockedPlan
      && ValidLines(data.track) && data.startedAt < data.endedAt && FreshRun(db, data)
    case MoveRunRequest(id, expected, target, reason) =>
      && id in db.runs && db.runs[id].state.CanTransition(target) && db.runs[id].version == expected
      && (target == QualityChecked ==> db.runs[id].data.navigation != Invalid)
      && (target == Rejected ==> |reason| >= 4)
    case DetectRequest(header, area, runs, algorithm, requested) =>
      8 <= |header| <= 120 && Detectable(db, area, UniqueIds(runs), algorithm, requested)
    case ReviewRequest(id, expected, target, note) =>
      && id in db.gaps && db.gaps[id].state.CanTransition(target) && db.gaps[id].version == expected
      && |WithNote(db.gaps[id].explanation, note)| <= MAX_EXPLANATION
    case ReplayRequest(run, options) =>
      && Replayable(db, run, options)
      && var key := ReplayKeyFor(db, run, options);
         FreshReplay(db, key) && ReplayOf(hypot, db.runs[run], key.params).Ok?
  }

  /** A thread that finishes does so with the outcome that accepting calls for. */
  ghost predicate Decides(hypot: Hypot, db: DB, next: (DB, Thread), accepts: bool) {
    next.1.Finished? ==>
      && (next.1.outcome == Done <==> accepts)
      && (next.1.outcome != Done ==> next.0 == db)
  }

  lemma Unfolded(hypot: Hypot, db: DB, thread: Thread, order: seq<nat>)
    ensures var a := Advance(hypot, db, thread, order);
            var b := Advance(hypot, a.0, a.1, order);
            var c := Advance(hypot, b.0, b.1, order);
            && Alone(hypot, db, thread, order, 3) == c
            && (a.1.Finished? ==> c == a)
            && (b.1.Finished? ==> c == b)
            && (thread.Finished? ==> c == (db, thread))
  {
    hide Advance;
    var a := Advance(hypot, db, thread, order);
    var b := Advance(hypot, a.0, a.1, order);
    AloneStep(hypot, db, thread, order, 3);
    AloneStep(hypot, a.0, a.1, order, 2);
    AloneOnce(hypot, b.0, b.1, order);
    if thread.Finished? { FinishedStays(hypot, db, thread, order); }
    if a.1.Finished? { FinishedStays(hypot, a.0, a.1, order); }
    if b.1.Finished? { FinishedStays(hypot, b.0, b.1, order); }
  }

  // ----- requests of one step

  lemma AreaDecides(hypot: Hypot, db: DB, request: Request, order: seq<nat>)
    requires Bound(request) && (request.CreateAreaRequest? || request.UpdateAreaRequest?)
    ensures Decides(hypot, db, Alone(hypot, db, Begin(db, request), order, 3), Accepts(hypot, db, request))
  {
    hide Alone, ValidGeometry;
    Unfolded(hypot, db, Begin(db, request), order);
  }

  lemma PlanDecides(hypot: Hypot, db: DB, request: Request, order: seq<nat>)
    requires Bound(request)
    requires request.CreatePlanRequest? || request.UpdatePlanRequest? || request.LockPlanRequest? || request.CopyPlanRequest?
    ensures Decides(hypot, db, Alone(hypot, db, Begin(db, request), order, 3), Accepts(hypot, db, request))
  {
    hide Alone, ValidLines;
    Unfolded(hypot, db, Begin(db, request), order);
  }

  lemma MoveRunDecides(hypot: Hypot, db: DB, request: Request, order: seq<nat>)
    requires Bound(request) && request.MoveRunRequest?
    ensures Decides(hypot, db, Alone(hypot, db, Begin(db, request), order, 3), Accepts(hypot, db, request))
  {
    hide Alone;
    Unfolded(hypot, db, Begin(db, request), order);
  }

  // ----- imports and reviews

  lemma ImportDecides(hypot: Hypot, db: DB, request: Request, order: seq<nat>)
    requires Bound(request) && request.ImportRequest?
    ensures Decides(hypot, db, Alone(hypot, db, Begin(db, request), order, 3), Accepts(hypot, db, request))
  {
    hide Alone, ValidLines, ChecksumOf;
    Unfolded(hypot, db, Begin(db, request), order);
  }

  lemma ReviewDecides(hypot: Hypot, db: DB, request: Request, order: seq<nat>)
    requires Bound(request) && request.ReviewRequest?
    ensures Decides(hypot, db, Alone(hypot, db, Begin(db, request), order, 3), Accepts(hypot, db, request))
  {
    hide Alone, WithNote;
    Unfolded(hypot, db, Begin(db, request), order);
  }

  // ----- detections

  /** All requested runs exist exactly when as many are listed. */
  lemma ListedAll(order: seq<nat>, ids: seq<nat>, runs: map<nat, RunRow>)
    requires IsListing(order, ids, runs) && NoRepeats(ids)
    ensures |order| == |ids| <==> forall k :: 0 <= k < |ids| ==> ids[k] in runs
  {
    if |order| == |ids| {
      ListingIsPermutation(order, ids, runs);
      forall k | 0 <= k < |ids| ensures ids[k] in runs {
        assert ids[k] in multiset(order);
      }
    }
    if forall k :: 0 <= k < |ids| ==> ids[k] in runs {
      NoRepeatsBag(order);
      NoRepeatsBag(ids);
      assert ToSet(order) == ToSet(ids);
    }
  }

  /** Whether all listed runs fit does not depend on the order. */
  lemma FitInAnyOrder(db: DB, area: nat, order: seq<nat>, ids: seq<nat>)
    requires IsListing(order, ids, db.runs) && NoRepeats(ids) && |order| == |ids|
    ensures AllFit(db, area, ids) <==> !(exists k :: 0 <= k < |order| && Misfit(db, area, order[k]))
    ensures AllFit(db, area, ids) ==> AllUsable(db.runs, ids) && AllUsable(db.runs, order) && multiset(order) == multiset(ids)
  {
    ListingIsPermutation(order, ids, db.runs);
    ListedAll(order, ids, db.runs);
    forall k | 0 <= k < |ids| ensures ids[k] in order {
      assert ids[k] in multiset(order);
    }
    hide Misplaced;
    if AllFit(db, area, ids) {
      forall k | 0 <= k < |order| ensures !Misfit(db, area, order[k]) {
        var j :| 0 <= j < |ids| && ids[j] == order[k];
        assert !Misfit(db, area, ids[j]);
      }
    }
    if !(exists k :: 0 <= k < |order| && Misfit(db, area, order[k])) {
      forall k | 0 <= k < |ids| ensures ids[k] in db.runs && !Misfit(db, area, ids[k]) {
        var j :| 0 <= j < |order| && order[j] == ids[k];
        assert !Misfit(db, area, order[j]);
      }
    }
  }

  /** What the reads of a detection lead to, told without the order of the listing. */
  lemma ReadRunsDecides(db: DB, area: nat, ids: seq<nat>, order: seq<nat>, algorithm: string, requested: real)
    requires area in db.areas && IsListing(order, ids, db.runs) && NoRepeats(ids)
    ensures var read := ReadRuns(db, area, db.areas[area], ids, order, algorithm, requested);
            && (AllFit(db, area, ids) ==>
                  && AllUsable(db.runs, order) && AllUsable(db.runs, ids) && multiset(order) == multiset(ids)
                  && read == DetectReady(ids, order, TracksOf(db.runs, order),
                                         RequestKey(db, area, ids, algorithm, requested), db.areas[area].fields.boundary))
            && (!AllFit(db, area, ids) ==> read.Finished? && read.outcome.Failed?)
  {
    ListedAll(order, ids, db.runs);
    if |order| == |ids| {
      FitInAnyOrder(db, area, order, ids);
      hide AllFit, Misfit, TracksOf, Checksums, Misplaced;
      if AllFit(db, area, ids) {
        RunsPermuted(db.runs, order, ids);
      }
    }
  }

  lemma StoreGapDecides(hypot: Hypot, db: DB, area: nat, ids: seq<nat>, order: seq<nat>, key: CoverageKey, boundary: Polygon)
    requires AllUsable(db.runs, order) && AllUsable(db.runs, ids) && multiset(order) == multiset(ids)
    requires FreshGap(db, key) && 0.0 < key.resolution <= 100.0
    ensures Decides(hypot, db, StoreGap(db, ids, TracksOf(db.runs, order), key, boundary),
                    IsPolygon(boundary) && PolygonVertices(boundary)
                    && Assess(boundary, TracksOf(db.runs, ids), key.resolution).Ok?)
  {
    hide Assess, TracksOf, Analysed, WithNote;
    if IsPolygon(boundary) {
      PolygonHasVertices(boundary);
      RunsPermuted(db.runs, order, ids);
      TracksPermuted(boundary, TracksOf(db.runs, order), TracksOf(db.runs, ids), key.resolution);
      var assessed := Assess(boundary, TracksOf(db.runs, order), key.resolution);
      if assessed.Ok? {
        var result := assessed.value;
        FewCells(boundary, TracksOf(db.runs, order), key.resolution, result);
        TextFits(key.resolution, result.sampleCells, result.filteredFragments);
      }
    }
  }

  lemma TextFits(resolution: real, cells: nat, fragments: nat)
    requires 0.0 < resolution <= 100.0 && cells <= 60000 && fragments <= 1
    ensures |Analysed(resolution, cells, fragments)| <= MAX_EXPLANATION
  {
    FirstNoteFits(resolution, cells, fragments, "");
    hide Analysed;
  }

  lemma KeyLookup(db: DB, key: CoverageKey)
    ensures GapByKey(db, key).None? <==> FreshGap(db, key)
  {
  }

  lemma DetectSteps(hypot: Hypot, db: DB, area: nat, ids: seq<nat>, order: seq<nat>, algorithm: string, requested: real)
    requires DbOk(hypot, db) && area in db.areas && IsListing(order, ids, db.runs) && NoRepeats(ids)
    requires requested == 0.0 || 0.0 < requested <= 100.0
    ensures var read := DetectRead(area, db.areas[area], ids, algorithm, requested);
            Decides(hypot, db, Alone(hypot, db, read, order, 3), Detectable(db, area, ids, algorithm, requested))
  {
    hide DbOk, Alone, Advance, IsListing, NoRepeats, AllFit, TracksOf, Checksums, FreshGap, Assess, ReadRuns,
         ValidGeometry, StoreGap, Vertices;
    AreaFacts(hypot, db, area);
    ReadRunsDecides(db, area, ids, order, algorithm, requested);
    var read := DetectRead(area, db.areas[area], ids, algorithm, requested);
    ReadStep(hypot, db, area, ids, order, algorithm, requested);
    Unfolded(hypot, db, read, order);
    if AllFit(db, area, ids) {
      var key := RequestKey(db, area, ids, algorithm, requested);
      var boundary := db.areas[area].fields.boundary;
      KeyLookup(db, key);
      KeyStep(hypot, db, ids, order, TracksOf(db.runs, order), key, boundary);
      if FreshGap(db, key) {
        StoreGapDecides(hypot, db, area, ids, order, key, boundary);
      }
    }
  }

  lemma ReadStep(hypot: Hypot, db: DB, area: nat, ids: seq<nat>, order: seq<nat>, algorithm: string, requested: real)
    requires area in db.areas && IsListing(order, ids, db.runs)
    ensures Advance(hypot, db, DetectRead(area, db.areas[area], ids, algorithm, requested), order)
         == (db, ReadRuns(db, area, db.areas[area], ids, order, algorithm, requested))
  {
    hide IsListing, ReadRuns;
  }

  lemma KeyStep(hypot: Hypot, db: DB, ids: seq<nat>, order: seq<nat>, tracks: seq<Track>, key: CoverageKey, boundary: Polygon)
    ensures Advance(hypot, db, DetectReady(ids, order, tracks, key, boundary), order)
         == (db, match GapByKey(db, key)
                 case Some(id) => Finished(Existing(id))
                 case None => DetectMissed(ids, order, tracks, key, boundary))
    ensures Advance(hypot, db, DetectMissed(ids, order, tracks, key, boundary), order)
         == StoreGap(db, ids, tracks, key, boundary)
  {
    hide GapByKey, StoreGap;
  }

  /** Without a listing of the runs, nothing happens. */
  lemma Unlisted(hypot: Hypot, db: DB, thread: Thread, order: seq<nat>)
    requires thread.DetectRead? && !IsListing(order, thread.ids, db.runs)
    ensures Alone(hypot, db, thread, order, 3) == (db, thread)
  {
    assert Advance(hypot, db, thread, order) == (db, thread);
    hide Alone, Advance, IsListing;
    Unfolded(hypot, db, thread, order);
  }

  lemma DetectDecides(hypot: Hypot, db: DB, request: Request, order: seq<nat>)
    requires DbOk(hypot, db) && Bound(request) && request.DetectRequest?
    ensures Decides(hypot, db, Alone(hypot, db, Begin(db, request), order, 3), Accepts(hypot, db, request))
  {
    hide DbOk, Alone, Detectable, Advance, IsListing, UniqueIds, NoRepeats, HasPart;
    Unfolded(hypot, db, Begin(db, request), order);
    var ids := UniqueIds(request.runs);
    UniqueIdsMeaning(request.runs);
    if 8 <= |request.header| <= 120 && request.area in db.areas {
      AreaFacts(hypot, db, request.area);
      if IsListing(order, ids, db.runs) {
        DetectSteps(hypot, db, request.area, ids, order, request.algorithm, request.resolution);
      } else {
        Unlisted(hypot, db, DetectRead(request.area, db.areas[request.area], ids, request.algorithm, request.resolution), order);
      }
    } else {
      NoArea(db, request.area, ids, request.algorithm, request.resolution);
    }
  }

  lemma NoArea(db: DB, area: nat, ids: seq<nat>, algorithm: string, requested: real)
    ensures area !in db.areas ==> !Detectable(db, area, ids, algorithm, requested)
  {
    hide AllFit, FreshGap, Assess;
  }

  // ----- replays

  lemma ReplayLookup(db: DB, key: ReplayKey)
    ensures ReplayByKey(db, key).None? <==> FreshReplay(db, key)
  {
  }

  lemma ReplaySteps(hypot: Hypot, db: DB, run: nat, row: RunRow, key: ReplayKey, order: seq<nat>)
    ensures Decides(hypot, db, Alone(hypot, db, ReplayRead(run, row, key), order, 3),
                    FreshReplay(db, key) && ReplayOf(hypot, row, key.params).Ok?)
  {
    hide Alone, ReplayOf;
    ReplayLookup(db, key);
    Unfolded(hypot, db, ReplayRead(run, row, key), order);
  }

  lemma ReplayBegins(db: DB, run: nat, options: ReplayOptions)
    ensures var begun := BeginReplay(db, run, options);
            if Replayable(db, run, options) then run in db.runs && begun == ReplayRead(run, db.runs[run], ReplayKeyFor(db, run, options))
            else begun.Finished? && begun.outcome.Failed?
  {
    hide Contains, Flatten, HasPart, ChecksumOf;
  }

  lemma ReplayDecides(hypot: Hypot, db: DB, request: Request, order: seq<nat>)
    requires Bound(request) && request.ReplayRequest?
    ensures Decides(hypot, db, Alone(hypot, db, Begin(db, request), order, 3), Accepts(hypot, db, request))
  {
    hide Alone, BeginReplay, Advance, ReplayOf, FreshReplay, Replayable;
    ReplayBegins(db, request.run, request.options);
    var begun := BeginReplay(db, request.run, request.options);
    Unfolded(hypot, db, begun, order);
    if Replayable(db, request.run, request.options) {
      var key := ReplayKeyFor(db, request.run, request.options);
      ReplaySteps(hypot, db, request.run, db.runs[request.run], key, order);
    }
  }

  // ----- any request

  /** A request served without interruption is done exactly when it is acceptable in the state it
      finds, and otherwise changes nothing. */
  lemma ServedDecides(hypot: Hypot, a: DB, request: Request, b: DB, outcome: Outcome)
    requires DbOk(hypot, a) && Served(hypot, a, request, b, outcome)
    ensures outcome == Done <==> Accepts(hypot, a, request)
    ensures outcome != Done ==> b == a
  {
    hide DbOk, Begin, Alone, Accepts, Bound, Advance;
    var order :| Alone(hypot, a, Begin(a, request), order, 3) == (b, Finished(outcome));
    if !Bound(request) {
      Unbound(hypot, a, request);
      Unfolded(hypot, a, Begin(a, request), order);
    } else {
      match request
      case CreateAreaRequest(_, _) => AreaDecides(hypot, a, request, order);
      case UpdateAreaRequest(_, _, _) => AreaDecides(hypot, a, request, order);
      case CreatePlanRequest(_, _) => PlanDecides(hypot, a, request, order);
      case UpdatePlanRequest(_, _, _) => PlanDecides(hypot, a, request, order);
      case LockPlanRequest(_, _) => PlanDecides(hypot, a, request, order);
      case CopyPlanRequest(_) => PlanDecides(hypot, a, request, order);
      case ImportRequest(_) => ImportDecides(hypot, a, request, order);
      case MoveRunRequest(_, _, _, _) => MoveRunDecides(hypot, a, request, order);
      case DetectRequest(_, _, _, _, _) => DetectDecides(hypot, a, request, order);
      case ReviewRequest(_, _, _, _) => ReviewDecides(hypot, a, request, order);
      case ReplayRequest(_, _) => ReplayDecides(hypot, a, request, order);
    }
  }

  lemma Unbound(hypot: Hypot, db: DB, request: Request)
    requires !Bound(request)
    ensures Begin(db, request) == Finished(Failed(BadRequest)) && !Accepts(hypot, db, request)
  {
    hide Bound, BeginBound;
  }
}
