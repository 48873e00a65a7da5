/** What each failure tells the caller about the stored rows and the request. */
module Failures {
  import opened Euclid
  import opened Options
  import opened Rings
  import opened Coverage
  import opened CoverageLaws
  import opened States
  import opened Replay
  import opened ReplayMeaning
  import opened Records
  import opened Services
  import opened Invariant
  import opened Preservation
  import opened Runs
  import opened Serving
  import opened Promises
  import opened Requirements
  import opened Transitions
  import opened Text

  // ----- what is missing, wrong or taken

  ghost predicate Missing(a: DB, request: Request) {
    match request
    case CreateAreaRequest(_, _) => false
    case UpdateAreaRequest(id, _, _) => id !in a.areas
    case CreatePlanRequest(area, _) => area !in a.areas
    case UpdatePlanRequest(id, _, _) => id !in a.plans
    case LockPlanRequest(id, _) => id !in a.plans
    case CopyPlanRequest(id) => id !in a.plans
    case ImportRequest(data) => data.plan !in a.plans
    case MoveRunRequest(id, _, _, _) => id !in a.runs
    case DetectRequest(_, area, _, _, _) => area !in a.areas
    case ReviewRequest(id, _, _, _) => id !in a.gaps
    case ReplayRequest(run, _) => run !in a.runs
  }

  ghost predicate OtherVersion(a: DB, request: Request) {
    match request
    case UpdateAreaRequest(id, expected, _) => id in a.areas && a.areas[id].version != expected
    case UpdatePlanRequest(id, expected, _) => id in a.plans && a.plans[id].version != expected
    case LockPlanRequest(id, expected) => id in a.plans && a.plans[id].version != expected
    case MoveRunRequest(id, expected, _, _) => id in a.runs && a.runs[id].version != expected
    case ReviewRequest(id, expected, _, _) => id in a.gaps && a.gaps[id].version != expected
    case _ => false
  }

  ghost predicate Taken(a: DB, request: Request) {
    match request
    case CreateAreaRequest(code, _) => exists id :: id in a.areas && a.areas[id].code == code
    case ImportRequest(data) =>
      && (exists id :: id in a.runs && a.runs[id].data.code == data.code)
      && (forall id :: id in a.runs ==> !SameSource(a.runs[id].data, data))
    case _ => false
  }

  ghost predicate NoRoom(a: DB, request: Request) {
    match request
    case CopyPlanRequest(id) => id in a.plans && |a.plans[id].fields.name| + 7 > 160
    case ReviewRequest(id, expected, _, note) =>
      id in a.gaps && a.gaps[id].version == expected && |a.gaps[id].explanation| + 6 + |note| > 1200
    case _ => false
  }

  predicate BadLines(lines: seq<Line>) {
    lines == [] || exists line :: line in lines && |line| < 2
  }

  ghost predicate BadGeometry(request: Request) {
    match request
    case CreateAreaRequest(_, f) => MetricName(f.crs) && !(|f.boundary| > 0 && |f.boundary[0]| >= 4 && Area(f.boundary) > 0.0)
    case UpdateAreaRequest(_, _, f) => MetricName(f.crs) && !(|f.boundary| > 0 && |f.boundary[0]| >= 4 && Area(f.boundary) > 0.0)
    case CreatePlanRequest(_, plan) => BadLines(plan.lines)
    case UpdatePlanRequest(_, _, plan) => BadLines(plan.lines)
    case ImportRequest(data) => BadLines(data.track)
    case _ => false
  }

  ghost predicate Archived(a: DB, request: Request) {
    match request
    case UpdateAreaRequest(id, _, _) => id in a.areas && a.areas[id].fields.status == ArchivedArea
    case CreatePlanRequest(area, _) => area in a.areas && a.areas[area].fields.status == ArchivedArea
    case _ => false
  }

  ghost predicate SomeRunElsewhere(a: DB, area: nat, runs: seq<nat>) {
    exists id :: id in runs && id in a.runs
                 && (a.runs[id].data.plan !in a.plans || a.plans[a.runs[id].data.plan].area != area)
  }

  ghost predicate SomeRunUnprocessed(a: DB, runs: seq<nat>) {
    exists id :: id in runs && id in a.runs && a.runs[id].state != Processed
  }

  /** The runs are ready, and their analysis over the area fails. */
  ghost predicate NotAnalysed(a: DB, area: nat, runs: seq<nat>, requested: real) {
    && area in a.areas && RunsReady(a, area, runs)
    && var boundary := a.areas[area].fields.boundary;
       PolygonVertices(boundary) && AnalysisFails(a, area, runs, requested)
  }

  ghost predicate AnalysisFails(a: DB, area: nat, runs: seq<nat>, requested: real)
    requires area in a.areas && RunsReady(a, area, runs) && PolygonVertices(a.areas[area].fields.boundary)
  {
    RunsReadyIff(a, area, runs);
    Assess(a.areas[area].fields.boundary, TracksOf(a.runs, UniqueIds(runs)), Resolution(a.areas[area].fields, requested)).Err?
  }

  ghost predicate RunAndArea(a: DB, run: nat) {
    && run in a.runs && a.runs[run].data.plan in a.plans && a.plans[a.runs[run].data.plan].area in a.areas
    && |a.areas[a.plans[a.runs[run].data.plan].area].fields.boundary| > 0
  }

  ghost predicate ReplayTells(a: DB, run: nat, options: ReplayOptions, f: Failure) {
    && RunAndArea(a, run)
    && var data := a.runs[run].data;
       var area := a.areas[a.plans[data.plan].area].fields;
       var n := VerticesBefore(data.track, |data.track|);
       match f
       case RunNotProcessed => a.runs[run].state != Processed
       case AlgorithmUnsupported => options.algorithm != "" && options.algorithm != "replay-v1"
       case SampleMissing => !CountAgrees(data.declared, options.expected, n)
       case OutOfBounds => !AllWithin(area.boundary, data.track)
       case ReplayDuplicate =>
         exists id :: id in a.replays
           && a.replays[id].key == ReplayKey(ChecksumOf(data), "replay-v1", Asked(options, area), options.expected)
       case SampleOverflow => n > 5000
       case ReplayGridTooLarge => n <= 5000 && TooBig(data, Asked(options, area).resolution)
       case _ => false
  }

  /** What a failure says about the request and the rows it found. */
  ghost predicate Tells(a: DB, request: Request, f: Failure) {
    match f
    case BadRequest => !Bound(request)
    case NotFound => Missing(a, request)
    case VersionConflict => OtherVersion(a, request)
    case DuplicateResource => Taken(a, request)
    case StorageFailed => NoRoom(a, request)
    case GeometryInvalid => BadGeometry(request)
    case AreaArchived => Archived(a, request)
    case CoordinateSystemInvalid =>
      (request.CreateAreaRequest? || request.UpdateAreaRequest?) && !MetricName(request.fields.crs)
    case AreaTooLarge =>
      (request.CreateAreaRequest? || request.UpdateAreaRequest?) && Area(request.fields.boundary) > 1000000000.0
    case PlanIsLocked => request.UpdatePlanRequest? && request.id in a.plans && a.plans[request.id].state == LockedPlan
    case PlanStateInvalid => request.LockPlanRequest? && request.id in a.plans && a.plans[request.id].state == LockedPlan
    case PlanNotLocked => request.ImportRequest? && request.data.plan in a.plans && a.plans[request.data.plan].state == DraftPlan
    case RunTimeInvalid => request.ImportRequest? && request.data.endedAt <= request.data.startedAt
    case RunTransitionInvalid =>
      request.MoveRunRequest? && request.id in a.runs && (a.runs[request.id].state, request.runTarget) !in RUN_STEPS
    case NavigationInvalid =>
      && request.MoveRunRequest? && request.id in a.runs && a.runs[request.id].data.navigation == Invalid
      && request.runTarget == QualityChecked
    case ReasonRequired => request.MoveRunRequest? && request.runTarget == RunState.Rejected && |request.reason| < 4
    case IdempotencyKeyRequired => request.DetectRequest? && (|request.header| < 8 || |request.header| > 120)
    case RunSetIncomplete => request.DetectRequest? && exists id :: id in request.runs && id !in a.runs
    case RunAreaMismatch => request.DetectRequest? && SomeRunElsewhere(a, request.area, request.runs)
    case RunNotProcessed =>
      || (request.DetectRequest? && SomeRunUnprocessed(a, request.runs))
      || (request.ReplayRequest? && ReplayTells(a, request.run, request.options, f))
    case CoverageInvalid => request.DetectRequest? && NotAnalysed(a, request.area, request.runs, request.resolution)
    case GapTransitionInvalid =>
      request.ReviewRequest? && request.id in a.gaps && (a.gaps[request.id].state, request.gapTarget) !in REVIEW_STEPS
    case _ => request.ReplayRequest? && ReplayTells(a, request.run, request.options, f)
  }

  // ----- request by request

  lemma Lines(lines: seq<Line>)
    ensures ValidLines(lines) <==> !BadLines(lines)
  {
  }

  /** How a request of one step fails, given what it finds first. */
  lemma OneStep(hypot: Hypot, a: DB, thread: Thread, order: seq<nat>)
    requires Advance(hypot, a, thread, order).1.Finished?
    ensures Alone(hypot, a, thread, order, 3) == Advance(hypot, a, thread, order)
  {
    hide Alone, Advance;
    Unfolded(hypot, a, thread, order);
  }

  lemma AtOnce(hypot: Hypot, a: DB, thread: Thread, order: seq<nat>)
    requires thread.Finished?
    ensures Alone(hypot, a, thread, order, 3) == (a, thread)
  {
    hide Alone, Advance;
    Unfolded(hypot, a, thread, order);
  }

  lemma AreaSteps(hypot: Hypot, a: DB, code: string, id: nat, expected: nat, before: AreaRow, fields: AreaFields, order: seq<nat>)
    ensures Advance(hypot, a, AreaChecked(code, fields), order).1
         == Finished(if InsertArea(a, AreaRow(code, fields, 1)).None? then Failed(DuplicateResource) else Done)
    ensures Advance(hypot, a, AreaRead(id, expected, before, fields), order).1
         == Finished(if UpdateArea(a, id, expected, fields).None? then Failed(VersionConflict) else Done)
  {
    hide InsertArea, UpdateArea;
  }

  lemma AreaBegins(a: DB, request: Request)
    requires request.CreateAreaRequest? || request.UpdateAreaRequest?
    ensures var begun := Begin(a, request);
            || (begun.Finished? && begun.outcome.Failed? && Tells(a, request, begun.outcome.failure))
            || (begun.AreaChecked? && request.CreateAreaRequest? && begun.code == request.code)
            || (begun.AreaRead? && request.UpdateAreaRequest? && begun.id == request.id && begun.expected == request.expected
                && request.id in a.areas)
  {
    hide Bound, ProjectedCRS, MetricName, Area;
    ProjectedIff(request.fields.crs);
  }

  lemma AreaTells(hypot: Hypot, a: DB, request: Request, order: seq<nat>, b: DB, f: Failure)
    requires request.CreateAreaRequest? || request.UpdateAreaRequest?
    requires Alone(hypot, a, Begin(a, request), order, 3) == (b, Finished(Failed(f)))
    ensures Tells(a, request, f)
  {
    hide Alone, Begin, Advance;
    var begun := Begin(a, request);
    AreaBegins(a, request);
    if begun.Finished? {
      AtOnce(hypot, a, begun, order);
    } else if begun.AreaChecked? {
      AreaSteps(hypot, a, begun.code, 0, 0, AreaRow("", begun.fields, 0), begun.fields, order);
      OneStep(hypot, a, begun, order);
    } else {
      AreaSteps(hypot, a, "", begun.id, begun.expected, begun.areaBefore, begun.fields, order);
      OneStep(hypot, a, begun, order);
    }
  }

  lemma PlanSteps(hypot: Hypot, a: DB, thread: Thread, order: seq<nat>)
    requires thread.PlanChecked? || thread.PlanRead? || thread.LockRead? || thread.CopyRead?
    ensures Advance(hypot, a, thread, order).1
         == match thread
            case PlanChecked(area, plan) => Finished(if |plan.name| > MAX_NAME then Failed(StorageFailed) else Done)
            case PlanRead(id, expected, _, plan) =>
              Finished(if id in a.plans && a.plans[id].version == expected then Done else Failed(VersionConflict))
            case LockRead(id, expected, _) =>
              Finished(if id in a.plans && a.plans[id].version == expected && a.plans[id].state == DraftPlan then Done
                       else Failed(VersionConflict))
            case CopyRead(before) => Finished(if |before.fields.name + COPY_MARK| > MAX_NAME then Failed(StorageFailed) else Done)
            case _ => thread
  {
  }

  lemma PlanBegins(a: DB, request: Request)
    requires request.CreatePlanRequest? || request.UpdatePlanRequest? || request.LockPlanRequest? || request.CopyPlanRequest?
    ensures var begun := Begin(a, request);
            || (begun.Finished? && begun.outcome.Failed? && Tells(a, request, begun.outcome.failure))
            || (request.CreatePlanRequest? && begun.PlanChecked? && |begun.plan.name| <= MAX_NAME)
            || (request.UpdatePlanRequest? && begun.PlanRead? && begun.id == request.id && begun.expected == request.expected
                && request.id in a.plans)
            || (request.LockPlanRequest? && begun.LockRead? && begun.id == request.id && begun.expected == request.expected
                && request.id in a.plans && a.plans[request.id].state == DraftPlan)
            || (request.CopyPlanRequest? && begun.CopyRead? && request.id in a.plans && begun.planBefore == a.plans[request.id])
  {
    hide ValidLines, BadLines, ValidGeometry, GeometryFailure;
    if request.CreatePlanRequest? || request.UpdatePlanRequest? { Lines(request.plan.lines); }
  }

  lemma PlanTells(hypot: Hypot, a: DB, request: Request, order: seq<nat>, b: DB, f: Failure)
    requires request.CreatePlanRequest? || request.UpdatePlanRequest? || request.LockPlanRequest? || request.CopyPlanRequest?
    requires Alone(hypot, a, Begin(a, request), order, 3) == (b, Finished(Failed(f)))
    ensures Tells(a, request, f)
  {
    hide Alone, Begin, Advance;
    var begun := Begin(a, request);
    PlanBegins(a, request);
    if begun.Finished? {
      AtOnce(hypot, a, begun, order);
    } else {
      PlanSteps(hypot, a, begun, order);
      OneStep(hypot, a, begun, order);
    }
  }

  lemma RunBegins(a: DB, request: Request)
    requires request.ImportRequest? || request.MoveRunRequest?
    ensures var begun := Begin(a, request);
            || (begun.Finished? && begun.outcome.Failed? && Tells(a, request, begun.outcome.failure))
            || (request.ImportRequest? && begun == ImportRead(request.data))
            || (request.MoveRunRequest? && request.id in a.runs
                && begun == RunRead(request.id, request.expected, a.runs[request.id], request.runTarget))
  {
    hide ValidLines, BadLines, ValidGeometry, GeometryFailure;
    if request.ImportRequest? { Lines(request.data.track); }
    if request.MoveRunRequest? && request.id in a.runs { RunPairs(a.runs[request.id].state, request.runTarget); }
  }

  lemma RunSteps(hypot: Hypot, a: DB, data: RunData, id: nat, expected: nat, target: RunState, order: seq<nat>)
    ensures Advance(hypot, a, ImportRead(data), order)
         == (a, if RunByChecksum(a, ChecksumOf(data)).None? then ImportMissed(data)
                else Finished(Existing(RunByChecksum(a, ChecksumOf(data)).value)))
    ensures Advance(hypot, a, ImportMissed(data), order).1
         == Finished(if InsertRun(a, RunRow(data, Imported, 1)).None? then Failed(DuplicateResource) else Done)
    ensures id in a.runs ==>
              Advance(hypot, a, RunRead(id, expected, a.runs[id], target), order).1
              == Finished(if a.runs[id].version == expected then Done else Failed(VersionConflict))
  {
    hide RunByChecksum, InsertRun;
  }

  lemma NotInserted(a: DB, data: RunData)
    requires RunByChecksum(a, ChecksumOf(data)).None? && InsertRun(a, RunRow(data, Imported, 1)).None?
    ensures Taken(a, ImportRequest(data))
  {
    hide RoundHalfEven;
  }

  lemma RunTells(hypot: Hypot, a: DB, request: Request, order: seq<nat>, b: DB, f: Failure)
    requires request.ImportRequest? || request.MoveRunRequest?
    requires Alone(hypot, a, Begin(a, request), order, 3) == (b, Finished(Failed(f)))
    ensures Tells(a, request, f)
  {
    hide Alone, Begin, Advance, InsertRun, RunByChecksum, ChecksumOf, Taken;
    var begun := Begin(a, request);
    RunBegins(a, request);
    if begun.Finished? {
      AtOnce(hypot, a, begun, order);
    } else if request.MoveRunRequest? {
      RunSteps(hypot, a, begun.runBefore.data, request.id, request.expected, request.runTarget, order);
      OneStep(hypot, a, begun, order);
    } else {
      RunSteps(hypot, a, request.data, 0, 0, Imported, order);
      Unfolded(hypot, a, begun, order);
      if RunByChecksum(a, ChecksumOf(request.data)).None? && InsertRun(a, RunRow(request.data, Imported, 1)).None? {
        NotInserted(a, request.data);
      }
    }
  }

  lemma ReviewBegins(a: DB, request: Request)
    requires request.ReviewRequest?
    ensures var begun := Begin(a, request);
            || (begun.Finished? && begun.outcome.Failed? && Tells(a, request, begun.outcome.failure))
            || (request.id in a.gaps
                && begun == GapRead(request.id, request.expected, a.gaps[request.id], request.gapTarget, request.note))
  {
    hide ValidLines, ValidGeometry, GeometryFailure;
    if request.id in a.gaps { ReviewPairs(a.gaps[request.id].state, request.gapTarget); }
  }

  lemma ReviewSteps(hypot: Hypot, a: DB, id: nat, expected: nat, target: GapState, note: string, order: seq<nat>)
    requires id in a.gaps
    ensures var next := Advance(hypot, a, GapRead(id, expected, a.gaps[id], target, note), order).1;
            || (next == Finished(Failed(VersionConflict)) && a.gaps[id].version != expected)
            || (next == Finished(Failed(StorageFailed)) && a.gaps[id].version == expected
                && |WithNote(a.gaps[id].explanation, note)| > MAX_EXPLANATION)
            || (next.GapMoved? && next.id == id && id in Advance(hypot, a, GapRead(id, expected, a.gaps[id], target, note), order).0.gaps)
  {
    hide WithNote;
  }

  lemma MovedGoesOn(hypot: Hypot, a: DB, thread: Thread, order: seq<nat>)
    requires (thread.GapMoved? && thread.id in a.gaps) || thread.GapReread?
    ensures var next := Advance(hypot, a, thread, order).1;
            if thread.GapMoved? then next.GapReread? else next == Finished(Done)
  {
  }

  lemma ReviewTells(hypot: Hypot, a: DB, request: Request, order: seq<nat>, b: DB, f: Failure)
    requires request.ReviewRequest?
    requires Alone(hypot, a, Begin(a, request), order, 3) == (b, Finished(Failed(f)))
    ensures Tells(a, request, f)
  {
    hide Alone, WithNote, Begin, Advance;
    var begun := Begin(a, request);
    ReviewBegins(a, request);
    if begun.Finished? {
      AtOnce(hypot, a, begun, order);
    } else {
      ReviewSteps(hypot, a, request.id, request.expected, request.gapTarget, request.note, order);
      NoteLength(a.gaps[request.id].explanation, request.note);
      var one := Advance(hypot, a, begun, order);
      if one.1.GapMoved? {
        MovedGoesOn(hypot, one.0, one.1, order);
        MovedGoesOn(hypot, Advance(hypot, one.0, one.1, order).0, Advance(hypot, one.0, one.1, order).1, order);
      }
      Unfolded(hypot, a, begun, order);
    }
  }

  lemma BeginReplayTells(hypot: Hypot, a: DB, run: nat, options: ReplayOptions, f: Failure)
    requires DbOk(hypot, a) && Bound(ReplayRequest(run, options)) && BeginReplay(a, run, options) == Finished(Failed(f))
    ensures Tells(a, ReplayRequest(run, options), f)
  {
    hide DbOk, BeginReplay, Tells, IsPolygon, ProjectedCRS, DataOk;
    if run in a.runs {
      RunRests(hypot, a, run);
      CheckTells(a, run, options, f);
    } else {
      NoRunTells(a, run, options);
    }
  }

  lemma NoRunTells(a: DB, run: nat, options: ReplayOptions)
    requires run !in a.runs
    ensures BeginReplay(a, run, options) == Finished(Failed(NotFound)) && Tells(a, ReplayRequest(run, options), NotFound)
  {
  }

  lemma CheckTells(a: DB, run: nat, options: ReplayOptions, f: Failure)
    requires run in a.runs && options.expected >= 0 && BeginReplay(a, run, options) == Finished(Failed(f))
    requires var data := a.runs[run].data;
             && data.plan in a.plans && a.plans[data.plan].area in a.areas
             && IsPolygon(a.areas[a.plans[data.plan].area].fields.boundary)
             && ProjectedCRS(a.areas[a.plans[data.plan].area].fields.crs)
    ensures Tells(a, ReplayRequest(run, options), f)
  {
    hide AllWithin, Contains, Flatten, VerticesBefore, ProjectedCRS, ChecksumOf, IsPolygon, TooBig, Missing, OtherVersion, Taken,
         NoRoom, BadGeometry, Archived, NotAnalysed, SomeRunElsewhere, SomeRunUnprocessed, Asked;
    var data := a.runs[run].data;
    var boundary := a.areas[a.plans[data.plan].area].fields.boundary;
    SampleCount(data.track);
    PolygonHasVertices(boundary);
    AllWithinIff(boundary, data.track);
  }

  lemma ReplayTold(hypot: Hypot, a: DB, request: Request, order: seq<nat>, b: DB, f: Failure)
    requires DbOk(hypot, a) && request.ReplayRequest?
    requires Alone(hypot, a, Begin(a, request), order, 3) == (b, Finished(Failed(f)))
    ensures Tells(a, request, f)
  {
    hide Alone, BeginReplay, DbOk, Advance, Replayable, ReplayOf, ChecksumOf, ReplayParams, Bound, Tells;
    var run, options := request.run, request.options;
    Unfolded(hypot, a, Begin(a, request), order);
    ReplayBegins(a, run, options);
    if !Bound(request) {
      BadTells(a, request);
    } else if Replayable(a, run, options) {
      StoreTells(hypot, a, run, options, order, b, f);
    } else {
      BeginReplayTells(hypot, a, run, options, f);
    }
  }

  lemma BadTells(a: DB, request: Request)
    requires !Bound(request)
    ensures Tells(a, request, BadRequest)
  {
    hide Bound;
  }

  lemma ReplayFails(hypot: Hypot, a: DB, run: nat, row: RunRow, key: ReplayKey, order: seq<nat>, f: Failure)
    requires Alone(hypot, a, ReplayRead(run, row, key), order, 3).1 == Finished(Failed(f))
    ensures || (f == ReplayDuplicate && exists id :: id in a.replays && a.replays[id].key == key)
            || (ReplayOf(hypot, row, key.params).Err? && f == ReplayFailure(ReplayOf(hypot, row, key.params).error))
  {
    hide Alone, ReplayOf, ReplayFailure;
    Unfolded(hypot, a, ReplayRead(run, row, key), order);
  }

  lemma StoreTells(hypot: Hypot, a: DB, run: nat, options: ReplayOptions, order: seq<nat>, b: DB, f: Failure)
    requires DbOk(hypot, a) && Bound(ReplayRequest(run, options)) && run in a.runs && Replayable(a, run, options)
    requires Alone(hypot, a, ReplayRead(run, a.runs[run], ReplayKeyFor(a, run, options)), order, 3) == (b, Finished(Failed(f)))
    ensures Tells(a, ReplayRequest(run, options), f)
  {
    hide Alone, DbOk, ReplayOf, ChecksumOf, Replayable, TooBig, VerticesBefore, Tells, Bound, ReplayWellFormed, DataOk,
         IsPolygon, ProjectedCRS, ReplayParams, Asked, Vertices;
    RunRests(hypot, a, run);
    ReplayBound(run, options);
    ReplayableIff(hypot, a, run, options);
    var data := a.runs[run].data;
    var area := a.areas[a.plans[data.plan].area].fields;
    AskedAre(options, area, run);
    var key := ReplayKeyFor(a, run, options);
    ReplayFails(hypot, a, run, a.runs[run], key, order, f);
    assert key.params.window == 3 by { AskedWindow(options, area); }
    SizeTells(hypot, a.runs[run], key.params);
    StoredTells(a, run, options, key, f);
  }

  lemma AskedWindow(options: ReplayOptions, area: AreaFields)
    ensures Asked(options, area).window == 3
  {
  }

  lemma StoredTells(a: DB, run: nat, options: ReplayOptions, key: ReplayKey, f: Failure)
    requires RunAndArea(a, run)
    requires var data := a.runs[run].data;
             var area := a.areas[a.plans[data.plan].area].fields;
             var n := VerticesBefore(data.track, |data.track|);
             && key == ReplayKey(ChecksumOf(data), "replay-v1", Asked(options, area), options.expected)
             && (|| (f == ReplayDuplicate && exists id :: id in a.replays && a.replays[id].key == key)
                 || (f == SampleOverflow && n > 5000)
                 || (f == ReplayGridTooLarge && n <= 5000 && TooBig(data, key.params.resolution)))
    ensures Tells(a, ReplayRequest(run, options), f)
  {
    hide ChecksumOf, TooBig, VerticesBefore, Asked;
  }

  lemma SizeTells(hypot: Hypot, row: RunRow, params: Params)
    requires DataOk(row.data) && params.resolution > 0.0 && params.window >= 1
    ensures ReplayOf(hypot, row, params) != Err(InvalidInput)
    ensures ReplayOf(hypot, row, params) == Err(TooManySamples) ==> VerticesBefore(row.data.track, |row.data.track|) > 5000
    ensures ReplayOf(hypot, row, params) == Err(ReplayError.GridTooLarge) ==>
              VerticesBefore(row.data.track, |row.data.track|) <= 5000 && TooBig(row.data, params.resolution)
  {
    hide Replayed;
    ReplayOfStored(hypot, row, params);
    ReplayOutcome(hypot, row.data.track, row.data.swath, NavBaseAccuracy(row.data.navigation), row.data.startedAt,
                  row.data.endedAt, params);
  }

  // ----- detections

  lemma ReadTells(a: DB, area: nat, runs: seq<nat>, order: seq<nat>, algorithm: string, requested: real, f: Failure)
    requires area in a.areas && IsListing(order, UniqueIds(runs), a.runs)
    requires ReadRuns(a, area, a.areas[area], UniqueIds(runs), order, algorithm, requested) == Finished(Failed(f))
    ensures f == RunSetIncomplete ==> exists id :: id in runs && id !in a.runs
    ensures f == RunAreaMismatch ==> SomeRunElsewhere(a, area, runs)
    ensures f == RunNotProcessed ==> SomeRunUnprocessed(a, runs)
    ensures f == RunSetIncomplete || f == RunAreaMismatch || f == RunNotProcessed
  {
    UniqueIdsMeaning(runs);
    var ids := UniqueIds(runs);
    ListedAll(order, ids, a.runs);
    if |order| != |ids| {
      var k :| 0 <= k < |ids| && ids[k] !in a.runs;
      assert ids[k] in runs && ids[k] !in a.runs;
    } else {
      ListsExisting(order, ids, a.runs);
      var k := FirstMisfit(a, area, order, 0);
      assert order[k] in ids;
    }
  }

  lemma DetectTold(hypot: Hypot, a: DB, request: Request, order: seq<nat>, b: DB, f: Failure)
    requires DbOk(hypot, a) && request.DetectRequest?
    requires Alone(hypot, a, Begin(a, request), order, 3) == (b, Finished(Failed(f)))
    ensures Tells(a, request, f)
  {
    hide Alone, DbOk, Advance, UniqueIds, IsListing, HasPart, BoundArea, BoundPlan, BoundOptions, ReadRuns, NotAnalysed,
         SomeRunElsewhere, SomeRunUnprocessed, IsPolygon, BeginReplay, ValidLines, GeometryFailure, ReplayTells, Taken, NoRoom,
         BadGeometry, Archived, OtherVersion;
    Unfolded(hypot, a, Begin(a, request), order);
    var area, runs := request.area, request.runs;
    if Bound(request) && 8 <= |request.header| <= 120 && area in a.areas {
      AreaFacts(hypot, a, area);
      var ids := UniqueIds(runs);
      if IsListing(order, ids, a.runs) {
        ListedTells(hypot, a, area, runs, order, request.algorithm, request.resolution, b, f);
      } else {
        Unlisted(hypot, a, DetectRead(area, a.areas[area], ids, request.algorithm, request.resolution), order);
      }
    }
  }

  lemma ListedTells(hypot: Hypot, a: DB, area: nat, runs: seq<nat>, order: seq<nat>, algorithm: string, requested: real,
                    b: DB, f: Failure)
    requires DbOk(hypot, a) && area in a.areas && IsListing(order, UniqueIds(runs), a.runs)
    requires requested == 0.0 || 0.0 < requested <= 100.0
    requires Alone(hypot, a, DetectRead(area, a.areas[area], UniqueIds(runs), algorithm, requested), order, 3)
          == (b, Finished(Failed(f)))
    ensures f == RunSetIncomplete ==> exists id :: id in runs && id !in a.runs
    ensures f == RunAreaMismatch ==> SomeRunElsewhere(a, area, runs)
    ensures f == RunNotProcessed ==> SomeRunUnprocessed(a, runs)
    ensures f == CoverageInvalid ==> NotAnalysed(a, area, runs, requested)
    ensures f == RunSetIncomplete || f == RunAreaMismatch || f == RunNotProcessed || f == CoverageInvalid
  {
    hide DbOk, Alone, Advance, IsListing, NoRepeats, AllFit, TracksOf, Checksums, FreshGap, Assess, ReadRuns,
         ValidGeometry, StoreGap, UniqueIds, IsPolygon, SomeRunElsewhere, SomeRunUnprocessed, NotAnalysed, RunsReady, PolygonVertices;
    var ids := UniqueIds(runs);
    UniqueIdsMeaning(runs);
    AreaFacts(hypot, a, area);
    ReadRunsDecides(a, area, ids, order, algorithm, requested);
    var read := DetectRead(area, a.areas[area], ids, algorithm, requested);
    ReadStep(hypot, a, area, ids, order, algorithm, requested);
    Unfolded(hypot, a, read, order);
    if AllFit(a, area, ids) {
      var key, boundary := RequestKey(a, area, ids, algorithm, requested), a.areas[area].fields.boundary;
      KeyLookup(a, key);
      KeyStep(hypot, a, ids, order, TracksOf(a.runs, order), key, boundary);
      if FreshGap(a, key) {
        AnalysisTells(a, area, runs, ids, order, key, requested, f);
      }
    } else {
      ReadTells(a, area, runs, order, algorithm, requested, f);
    }
  }

  lemma AnalysisTells(a: DB, area: nat, runs: seq<nat>, ids: seq<nat>, order: seq<nat>, key: CoverageKey, requested: real, f: Failure)
    requires area in a.areas && ids == UniqueIds(runs) && AllFit(a, area, ids)
    requires AllUsable(a.runs, order) && AllUsable(a.runs, ids) && multiset(order) == multiset(ids)
    requires IsPolygon(a.areas[area].fields.boundary) && FreshGap(a, key) && 0.0 < key.resolution <= 100.0
    requires key.resolution == Resolution(a.areas[area].fields, requested)
    requires StoreGap(a, ids, TracksOf(a.runs, order), key, a.areas[area].fields.boundary).1 == Finished(Failed(f))
    ensures f == CoverageInvalid && NotAnalysed(a, area, runs, requested)
  {
    var boundary := a.areas[area].fields.boundary;
    RunsReadyIff(a, area, runs);
    PolygonHasVertices(boundary);
    RunsPermuted(a.runs, order, ids);
    TracksPermuted(boundary, TracksOf(a.runs, order), TracksOf(a.runs, ids), key.resolution);
    hide Assess, TracksOf, Analysed, IsPolygon, SeverityForRatio, Vertices, RunsReady, AllFit, UniqueIds;
    var assessed := Assess(boundary, TracksOf(a.runs, order), key.resolution);
    if assessed.Ok? {
      FewCells(boundary, TracksOf(a.runs, order), key.resolution, assessed.value);
      TextFits(key.resolution, assessed.value.sampleCells, assessed.value.filteredFragments);
    }
  }

  /** A request served alone that fails tells the truth: its failure names something that is so. A
      replay never fails for a missing area or for want of something to replay. */
  lemma FailureTells(hypot: Hypot, a: DB, request: Request, b: DB, f: Failure)
    requires DbOk(hypot, a) && Served(hypot, a, request, b, Failed(f))
    ensures Tells(a, request, f)
  {
    hide DbOk, Begin, Alone, Tells, Advance;
    var order :| Alone(hypot, a, Begin(a, request), order, 3) == (b, Finished(Failed(f)));
    match request
    case CreateAreaRequest(_, _) => AreaTells(hypot, a, request, order, b, f);
    case UpdateAreaRequest(_, _, _) => AreaTells(hypot, a, request, order, b, f);
    case CreatePlanRequest(_, _) => PlanTells(hypot, a, request, order, b, f);
    case UpdatePlanRequest(_, _, _) => PlanTells(hypot, a, request, order, b, f);
    case LockPlanRequest(_, _) => PlanTells(hypot, a, request, order, b, f);
    case CopyPlanRequest(_) => PlanTells(hypot, a, request, order, b, f);
    case ImportRequest(_) => RunTells(hypot, a, request, order, b, f);
    case MoveRunRequest(_, _, _, _) => RunTells(hypot, a, request, order, b, f);
    case DetectRequest(_, _, _, _, _) => DetectTold(hypot, a, request, order, b, f);
    case ReviewRequest(_, _, _, _) => ReviewTells(hypot, a, request, order, b, f);
    case ReplayRequest(_, _) => ReplayTold(hypot, a, request, order, b, f);
  }

  // ----- when a stored row is the answer

  /** The stored row a request is answered with: a run of the same source, or a gap of the same key. */
  ghost predicate Answered(a: DB, request: Request, id: nat) {
    match request
    case ImportRequest(data) => id in a.runs && SameSource(a.runs[id].data, data)
    case DetectRequest(_, area, runs, algorithm, requested) =>
      id in a.gaps && area in a.areas && RunsReady(a, area, runs) && KeyIs(a, area, runs, algorithm, requested, a.gaps[id].data.key)
    case _ => false
  }

  ghost predicate KeyIs(a: DB, area: nat, runs: seq<nat>, algorithm: string, requested: real, key: CoverageKey)
    requires area in a.areas && RunsReady(a, area, runs)
  {
    RunsReadyIff(a, area, runs);
    && key.area == area && key.crs == a.areas[area].fields.crs && key.algorithm == algorithm
    && key.checksums == multiset(Checksums(a.runs, UniqueIds(runs)))
    && key.resolution == Resolution(a.areas[area].fields, requested)
  }

  lemma FoundBySource(a: DB, data: RunData, id: nat)
    requires RunByChecksum(a, ChecksumOf(data)) == Some(id)
    ensures Answered(a, ImportRequest(data), id)
  {
    hide RoundHalfEven;
  }

  lemma ImportAnswers(hypot: Hypot, a: DB, data: RunData, order: seq<nat>, b: DB, id: nat)
    requires Alone(hypot, a, Begin(a, ImportRequest(data)), order, 3) == (b, Finished(Existing(id)))
    ensures Answered(a, ImportRequest(data), id)
  {
    hide Alone, Begin, Advance, InsertRun, RunByChecksum, ChecksumOf, Tells, Answered;
    var begun := Begin(a, ImportRequest(data));
    RunBegins(a, ImportRequest(data));
    if begun.Finished? {
      AtOnce(hypot, a, begun, order);
    } else {
      RunSteps(hypot, a, data, 0, 0, Imported, order);
      Unfolded(hypot, a, begun, order);
      if RunByChecksum(a, ChecksumOf(data)).Some? {
        FoundBySource(a, data, id);
      }
    }
  }

  /** All other requests never are. */
  lemma NeverExisting(hypot: Hypot, db: DB, thread: Thread, order: seq<nat>)
    requires !thread.ImportRead? && !thread.DetectReady? && !thread.Finished?
    ensures var next := Advance(hypot, db, thread, order).1;
            !next.ImportRead? && (thread.DetectRead? || !next.DetectReady?) && !(next.Finished? && next.outcome.Existing?)
  {
    hide ReplayOf, Assess, Analysed, TracksOf, Checksums, WithNote;
  }

  lemma OthersBegin(a: DB, request: Request)
    requires !request.ImportRequest? && !request.DetectRequest?
    ensures var begun := Begin(a, request);
            !begun.ImportRead? && !begun.DetectRead? && !begun.DetectReady? && !(begun.Finished? && begun.outcome.Existing?)
  {
    hide Contains, Flatten, ValidLines, ValidGeometry, GeometryFailure, ChecksumOf;
  }

  lemma NotDetecting(hypot: Hypot, db: DB, thread: Thread, order: seq<nat>)
    requires !thread.DetectRead?
    ensures !Advance(hypot, db, thread, order).1.DetectRead?
  {
    hide ReplayOf, Assess, Analysed, WithNote;
  }

  lemma OthersDoNotAnswer(hypot: Hypot, a: DB, request: Request, order: seq<nat>, b: DB, id: nat)
    requires !request.ImportRequest? && !request.DetectRequest?
    ensures Alone(hypot, a, Begin(a, request), order, 3) != (b, Finished(Existing(id)))
  {
    hide Alone, Begin, Advance;
    OthersBegin(a, request);
    var begun := Begin(a, request);
    Unfolded(hypot, a, begun, order);
    if !begun.Finished? {
      NeverExisting(hypot, a, begun, order);
      NotDetecting(hypot, a, begun, order);
      var one := Advance(hypot, a, begun, order);
      if !one.1.Finished? {
        NeverExisting(hypot, one.0, one.1, order);
        NotDetecting(hypot, one.0, one.1, order);
        var two := Advance(hypot, one.0, one.1, order);
        if !two.1.Finished? {
          NeverExisting(hypot, two.0, two.1, order);
        }
      }
    }
  }

  lemma DetectAnswers(hypot: Hypot, a: DB, request: Request, order: seq<nat>, b: DB, id: nat)
    requires DbOk(hypot, a) && request.DetectRequest?
    requires Alone(hypot, a, Begin(a, request), order, 3) == (b, Finished(Existing(id)))
    ensures Answered(a, request, id)
  {
    hide Alone, DbOk, Advance, UniqueIds, IsListing, HasPart, BoundArea, BoundPlan, BoundOptions, IsPolygon, RunsReady, Answered;
    Unfolded(hypot, a, Begin(a, request), order);
    var area, runs := request.area, request.runs;
    if Bound(request) && area in a.areas {
      var ids := UniqueIds(runs);
      if IsListing(order, ids, a.runs) {
        ListedAnswers(hypot, a, request, order, b, id);
      } else {
        Unlisted(hypot, a, DetectRead(area, a.areas[area], ids, request.algorithm, request.resolution), order);
      }
    }
  }

  lemma ListedAnswers(hypot: Hypot, a: DB, request: Request, order: seq<nat>, b: DB, id: nat)
    requires request.DetectRequest? && request.area in a.areas && IsListing(order, UniqueIds(request.runs), a.runs)
    requires Alone(hypot, a, DetectRead(request.area, a.areas[request.area], UniqueIds(request.runs), request.algorithm,
                                        request.resolution), order, 3) == (b, Finished(Existing(id)))
    ensures Answered(a, request, id)
  {
    hide Alone, Advance, IsListing, NoRepeats, AllFit, TracksOf, Checksums, ReadRuns, ValidGeometry, UniqueIds, IsPolygon,
         RunsReady, Assess, Analysed;
    var area, runs, algorithm, requested := request.area, request.runs, request.algorithm, request.resolution;
    var ids := UniqueIds(runs);
    UniqueIdsMeaning(runs);
    RunsReadyIff(a, area, runs);
    ReadRunsDecides(a, area, ids, order, algorithm, requested);
    var read := DetectRead(area, a.areas[area], ids, algorithm, requested);
    ReadStep(hypot, a, area, ids, order, algorithm, requested);
    Unfolded(hypot, a, read, order);
    if AllFit(a, area, ids) {
      var key, boundary := RequestKey(a, area, ids, algorithm, requested), a.areas[area].fields.boundary;
      KeyStep(hypot, a, ids, order, TracksOf(a.runs, order), key, boundary);
    }
  }

  /** A request served alone is answered with a stored row only if it is an import of that run's source,
      or a detection of that gap's key. */
  lemma ExistingTells(hypot: Hypot, a: DB, request: Request, b: DB, id: nat)
    requires DbOk(hypot, a) && Served(hypot, a, request, b, Existing(id))
    ensures Answered(a, request, id)
  {
    hide DbOk, Begin, Alone, Advance, Answered;
    var order :| Alone(hypot, a, Begin(a, request), order, 3) == (b, Finished(Existing(id)));
    if request.DetectRequest? {
      DetectAnswers(hypot, a, request, order, b, id);
    } else if request.ImportRequest? {
      ImportAnswers(hypot, a, request.data, order, b, id);
    } else {
      OthersDoNotAnswer(hypot, a, request, order, b, id);
    }
  }
}
