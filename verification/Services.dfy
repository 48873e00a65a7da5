/** The services as a protocol: every request is a thread that reads, checks and then performs one
    atomic repository operation at a time, and any interleaving of threads is a run. */
module Services {
  import opened Euclid
  import opened Options
  import opened Rings
  import opened Coverage
  import opened States
  import opened Replay
  import opened Records
  import opened Text

  // ----- requests

  /** The tunable part of a replay request; zero and the empty string ask for the default. */
  datatype ReplayOptions = ReplayOptions(
    algorithm: string, expected: int, dropoutFactor: real, accuracyThreshold: real, resolution: real)

  /** A rejection reason and the idempotency header are measured in bytes, all other texts in
      characters. Codes, names and coordinate systems arrive trimmed, codes and coordinate systems in
      upper case. */
  datatype Request =
    | CreateAreaRequest(code: string, fields: AreaFields)
    | UpdateAreaRequest(id: nat, expected: nat, fields: AreaFields)
    | CreatePlanRequest(area: nat, plan: PlanFields)
    | UpdatePlanRequest(id: nat, expected: nat, plan: PlanFields)
    | LockPlanRequest(id: nat, expected: nat)
    | CopyPlanRequest(id: nat)
    | ImportRequest(data: RunData)
    | MoveRunRequest(id: nat, expected: nat, runTarget: RunState, reason: seq<bv8>)
    | DetectRequest(header: seq<bv8>, area: nat, runs: seq<nat>, algorithm: string, resolution: real)
    | ReviewRequest(id: nat, expected: nat, gapTarget: GapState, note: string)
    | ReplayRequest(run: nat, options: ReplayOptions)

  datatype Failure =
    | BadRequest | StorageFailed | NotFound | VersionConflict | DuplicateResource
    | CoordinateSystemInvalid | GeometryInvalid | AreaTooLarge | AreaArchived
    | PlanIsLocked | PlanStateInvalid | PlanNotLocked
    | RunTimeInvalid | RunTransitionInvalid | NavigationInvalid | ReasonRequired
    | IdempotencyKeyRequired | RunSetIncomplete | RunAreaMismatch | RunNotProcessed | CoverageInvalid
    | GapTransitionInvalid
    | RunAreaMissing | AlgorithmUnsupported | SampleMissing | OutOfBounds
    | ReplayDuplicate | ReplayInvalid | SampleOverflow | ReplayGridTooLarge

  datatype Outcome = Done | Existing(id: nat) | Failed(failure: Failure)

  /** Where a request stands between two atomic operations. */
  datatype Thread =
    | Finished(outcome: Outcome)
    | AreaChecked(code: string, fields: AreaFields)
    | AreaRead(id: nat, expected: nat, areaBefore: AreaRow, fields: AreaFields)
    | PlanChecked(area: nat, plan: PlanFields)
    | PlanRead(id: nat, expected: nat, planBefore: PlanRow, plan: PlanFields)
    | LockRead(id: nat, expected: nat, planBefore: PlanRow)
    | CopyRead(planBefore: PlanRow)
    | ImportRead(data: RunData)
    | ImportMissed(data: RunData)
    | RunRead(id: nat, expected: nat, runBefore: RunRow, runTarget: RunState)
    | DetectRead(area: nat, areaBefore: AreaRow, ids: seq<nat>, algorithm: string, resolution: real)
    | DetectReady(ids: seq<nat>, order: seq<nat>, tracks: seq<Track>, key: CoverageKey, boundary: Polygon)
    | DetectMissed(ids: seq<nat>, order: seq<nat>, tracks: seq<Track>, key: CoverageKey, boundary: Polygon)
    | GapRead(id: nat, expected: nat, gapBefore: GapRow, gapTarget: GapState, note: string)
    | GapMoved(id: nat, gapBefore: GapRow, written: GapRow)
    | GapReread(id: nat, gapBefore: GapRow, written: GapRow, gapAfter: GapRow)
    | ReplayRead(run: nat, runBefore: RunRow, replayKey: ReplayKey)
    | ReplayMissed(run: nat, runBefore: RunRow, replayKey: ReplayKey)

  // ----- checks that only compute

  const MAX_AREA := 1000000000.0

  predicate HasPart(s: string, part: string)
    requires part != ""
  {
    |part| <= |s| && (part <= s || HasPart(s[1..], part))
  }

  /** A coordinate system in metres, as far as its name tells. */
  predicate ProjectedCRS(crs: string) {
    crs != "" && !HasPart(crs, "4326") && !HasPart(crs, "WGS84") && !HasPart(crs, "WGS 84")
  }

  /** A boundary that can be parsed as a polygon. */
  ghost predicate IsPolygon(b: Polygon) {
    |b| > 0 && |b[0]| >= 4 && 0.0 < Rings.Area(b)
  }

  lemma PolygonHasVertices(b: Polygon)
    requires IsPolygon(b)
    ensures |b| > 0 && Vertices(b) != {}
  {
    assert b[0][0] in Vertices(b);
  }

  method CheckPolygon(b: Polygon) returns (ok: bool)
    ensures ok <==> IsPolygon(b)
  {
    if |b| == 0 || |b[0]| < 4 {
      return false;
    }
    var area := PolygonArea(b);
    ok := area > 0.0;
  }

  /** A boundary an area may have. */
  ghost predicate ValidBoundary(b: Polygon) {
    IsPolygon(b) && Rings.Area(b) <= MAX_AREA
  }

  ghost predicate ValidGeometry(fields: AreaFields) {
    ProjectedCRS(fields.crs) && ValidBoundary(fields.boundary)
  }

  ghost function GeometryFailure(fields: AreaFields): Failure {
    if !ProjectedCRS(fields.crs) then CoordinateSystemInvalid
    else if IsPolygon(fields.boundary) then AreaTooLarge
    else GeometryInvalid
  }

  method CheckGeometry(fields: AreaFields) returns (failure: Option<Failure>)
    ensures failure == if ValidGeometry(fields) then None else Some(GeometryFailure(fields))
  {
    if !ProjectedCRS(fields.crs) {
      return Some(CoordinateSystemInvalid);
    }
    var b := fields.boundary;
    var polygon := CheckPolygon(b);
    if !polygon {
      return Some(GeometryInvalid);
    }
    var area := PolygonArea(b);
    if area > MAX_AREA {
      return Some(AreaTooLarge);
    }
    return None;
  }

  /** Lines accepted by the geometry checks. */
  predicate ValidLines(lines: seq<Line>) {
    |lines| > 0 && forall k :: 0 <= k < |lines| ==> |lines[k]| >= 2
  }

  /** Keeps the first occurrence of each identifier. */
  function UniqueIds(values: seq<nat>): seq<nat> {
    if |values| == 0 then []
    else
      var n := |values| - 1;
      UniqueIds(values[..n]) + if values[n] in values[..n] then [] else [values[n]]
  }

  method UniqueIdList(values: seq<nat>) returns (result: seq<nat>)
    ensures result == UniqueIds(values)
  {
    var seen: set<nat> := {};
    result := [];
    for i := 0 to |values|
      invariant seen == set v | v in values[..i]
      invariant result == UniqueIds(values[..i])
    {
      assert values[..i + 1][..i] == values[..i];
      if values[i] !in seen {
        seen := seen + {values[i]};
        result := result + [values[i]];
      }
    }
    assert values[..|values|] == values;
  }

  function TrackOf(run: RunRow): Track { Track(run.data.track, run.data.swath) }

  function TracksOf(runs: map<nat, RunRow>, ids: seq<nat>): seq<Track>
    requires forall k :: 0 <= k < |ids| ==> ids[k] in runs
  {
    seq(|ids|, k requires 0 <= k < |ids| => TrackOf(runs[ids[k]]))
  }

  function Checksums(runs: map<nat, RunRow>, ids: seq<nat>): seq<Checksum>
    requires forall k :: 0 <= k < |ids| ==> ids[k] in runs
  {
    seq(|ids|, k requires 0 <= k < |ids| => ChecksumOf(runs[ids[k]].data))
  }

  /** A listing of the rows with one of the given identifiers, in whatever order. */
  ghost predicate IsListing(order: seq<nat>, ids: seq<nat>, runs: map<nat, RunRow>) {
    && (forall j, k :: 0 <= j < k < |order| ==> order[j] != order[k])
    && (forall k :: 0 <= k < |order| ==> order[k] in ids && order[k] in runs)
    && (forall k :: 0 <= k < |ids| && ids[k] in runs ==> ids[k] in order)
  }

  const REPLAY_ALGORITHM := "replay-v1"

  /** A claimed number of samples is a number, and the right one. */
  predicate Admits(declared: Declared, actual: nat) {
    match declared
    case Absent => true
    case Malformed => false
    case Claimed(count) => count == actual as real
  }

  /** Fills in the defaults of a replay request. */
  function ReplayParams(options: ReplayOptions, defaultResolution: real): Params {
    Params(
      if options.dropoutFactor > 0.0 then options.dropoutFactor else 2.5,
      if options.accuracyThreshold > 0.0 then options.accuracyThreshold else 10.0,
      if options.resolution > 0.0 then options.resolution else defaultResolution,
      3)
  }

  // ----- what the request binding accepts

  predicate BoundArea(f: AreaFields) {
    && 3 <= |f.name| <= MAX_NAME && 4 <= |f.crs| <= 80 && 2 <= |f.ownerTeam| <= 120
    && 0.0 < f.resolution <= 100.0 && 0.0 < f.defaultSwath <= 2000.0
  }

  predicate BoundPlan(p: PlanFields) {
    3 <= |p.name| <= MAX_NAME && 0.0 <= p.heading < 360.0 && 0.0 < p.swath <= 2000.0 && 0.0 < p.spacing <= 2000.0
  }

  predicate BoundOptions(o: ReplayOptions) {
    && (o.algorithm == "" || 3 <= |o.algorithm| <= 40)
    && o.expected >= 0
    && (o.dropoutFactor == 0.0 || 1.5 <= o.dropoutFactor <= 10.0)
    && (o.accuracyThreshold == 0.0 || 0.0 < o.accuracyThreshold <= 200.0)
    && (o.resolution == 0.0 || 0.0 < o.resolution <= 100.0)
  }

  /** The bounds and enumerations a request must satisfy before it reaches a service. */
  predicate Bound(request: Request) {
    match request
    case CreateAreaRequest(code, fields) => 3 <= |code| <= 40 && BoundArea(fields)
    case UpdateAreaRequest(_, expected, fields) => expected > 0 && BoundArea(fields)
    case CreatePlanRequest(area, plan) => area > 0 && BoundPlan(plan)
    case UpdatePlanRequest(_, expected, plan) => expected > 0 && BoundPlan(plan)
    case LockPlanRequest(_, expected) => expected > 0
    case CopyPlanRequest(_) => true
    case ImportRequest(data) => data.plan > 0 && 3 <= |data.code| <= 48 && 0.0 < data.swath <= 2000.0
    case MoveRunRequest(_, expected, target, _) => expected > 0 && target != Imported
    case DetectRequest(_, area, runs, algorithm, resolution) =>
      && 3 <= |algorithm| <= 40 && area > 0 && |runs| >= 1 && (forall k :: 0 <= k < |runs| ==> runs[k] > 0)
      && (resolution == 0.0 || 0.0 < resolution <= 100.0)
    case ReviewRequest(_, expected, target, note) => expected > 0 && target != Detected && MIN_NOTE <= |note| <= MAX_NOTE
    case ReplayRequest(run, options) => run > 0 && BoundOptions(options)
  }

  // ----- one request, one step at a time

  ghost function Begin(db: DB, request: Request): Thread {
    if !Bound(request) then Finished(Failed(BadRequest)) else BeginBound(db, request)
  }

  ghost function BeginBound(db: DB, request: Request): Thread {
    match request
    case CreateAreaRequest(code, fields) =>
      if !ValidGeometry(fields) then Finished(Failed(GeometryFailure(fields)))
      else AreaChecked(code, fields.(status := DraftArea))
    case UpdateAreaRequest(id, expected, fields) =>
      if id !in db.areas then Finished(Failed(NotFound))
      else if db.areas[id].fields.status == ArchivedArea then Finished(Failed(AreaArchived))
      else if !ValidGeometry(fields) then Finished(Failed(GeometryFailure(fields)))
      else AreaRead(id, expected, db.areas[id], fields)
    case CreatePlanRequest(area, plan) =>
      if area !in db.areas then Finished(Failed(NotFound))
      else if db.areas[area].fields.status == ArchivedArea then Finished(Failed(AreaArchived))
      else if !ValidLines(plan.lines) then Finished(Failed(GeometryInvalid))
      else PlanChecked(area, plan)
    case UpdatePlanRequest(id, expected, plan) =>
      if id !in db.plans then Finished(Failed(NotFound))
      else if db.plans[id].state != DraftPlan then Finished(Failed(PlanIsLocked))
      else if !ValidLines(plan.lines) then Finished(Failed(GeometryInvalid))
      else PlanRead(id, expected, db.plans[id], plan)
    case LockPlanRequest(id, expected) =>
      if id !in db.plans then Finished(Failed(NotFound))
      else if db.plans[id].state != DraftPlan then Finished(Failed(PlanStateInvalid))
      else LockRead(id, expected, db.plans[id])
    case CopyPlanRequest(id) =>
      if id !in db.plans then Finished(Failed(NotFound)) else CopyRead(db.plans[id])
    case ImportRequest(data) =>
      if data.plan !in db.plans then Finished(Failed(NotFound))
      else if db.plans[data.plan].state != LockedPlan then Finished(Failed(PlanNotLocked))
      else if !ValidLines(data.track) then Finished(Failed(GeometryInvalid))
      else if data.endedAt <= data.startedAt then Finished(Failed(RunTimeInvalid))
      else ImportRead(data)
    case MoveRunRequest(id, expected, target, reason) =>
      if id !in db.runs then Finished(Failed(NotFound))
      else if !db.runs[id].state.CanTransition(target) then Finished(Failed(RunTransitionInvalid))
      else if target == QualityChecked && db.runs[id].data.navigation == Invalid then Finished(Failed(NavigationInvalid))
      else if target == Rejected && |reason| < 4 then Finished(Failed(ReasonRequired))
      else RunRead(id, expected, db.runs[id], target)
    case DetectRequest(header, area, runs, algorithm, resolution) =>
      if !(8 <= |header| <= 120) then Finished(Failed(IdempotencyKeyRequired))
      else if area !in db.areas then Finished(Failed(NotFound))
      else if !ProjectedCRS(db.areas[area].fields.crs) then Finished(Failed(CoordinateSystemInvalid))
      else DetectRead(area, db.areas[area], UniqueIds(runs), algorithm, resolution)
    case ReviewRequest(id, expected, target, note) =>
      if id !in db.gaps then Finished(Failed(NotFound))
      else if !db.gaps[id].state.CanTransition(target) then Finished(Failed(GapTransitionInvalid))
      else GapRead(id, expected, db.gaps[id], target, note)
    case ReplayRequest(run, options) => BeginReplay(db, run, options)
  }

  ghost function BeginReplay(db: DB, run: nat, options: ReplayOptions): Thread {
    if run !in db.runs then Finished(Failed(NotFound))
    else
      var row := db.runs[run];
      if row.state != Processed then Finished(Failed(RunNotProcessed))
      else if row.data.plan !in db.plans || db.plans[row.data.plan].area !in db.areas then Finished(Failed(RunAreaMissing))
      else
        var area := db.areas[db.plans[row.data.plan].area];
        var algorithm := if options.algorithm == "" then REPLAY_ALGORITHM else options.algorithm;
        var samples := Flatten(row.data.track);
        if !ProjectedCRS(area.fields.crs) then Finished(Failed(CoordinateSystemInvalid))
        else if algorithm != REPLAY_ALGORITHM then Finished(Failed(AlgorithmUnsupported))
        else if !Admits(row.data.declared, |samples|) then Finished(Failed(SampleMissing))
        else if options.expected > 0 && options.expected != |samples| then Finished(Failed(SampleMissing))
        else if !IsPolygon(area.fields.boundary) then Finished(Failed(GeometryInvalid))
        else if exists k :: 0 <= k < |samples| && !Contains(area.fields.boundary, samples[k].point)
          then Finished(Failed(OutOfBounds))
        else
          var key := ReplayKey(ChecksumOf(row.data), algorithm, ReplayParams(options, area.fields.resolution), options.expected);
          ReplayRead(run, row, key)
  }

  /** The state after the reads of a detection: every run must exist, belong to the area and be processed. */
  ghost function ReadRuns(db: DB, area: nat, areaRow: AreaRow, ids: seq<nat>, order: seq<nat>,
                          algorithm: string, requested: real): Thread
    requires IsListing(order, ids, db.runs)
  {
    if |order| != |ids| then Finished(Failed(RunSetIncomplete))
    else if exists k :: 0 <= k < |order| && Misfit(db, area, order[k]) then
      var k := FirstMisfit(db, area, order, 0);
      Finished(Failed(if Misplaced(db, area, order[k]) then RunAreaMismatch else RunNotProcessed))
    else
      var resolution := if requested == 0.0 then areaRow.fields.resolution else requested;
      var key := CoverageKey(area, areaRow.fields.crs, algorithm, multiset(Checksums(db.runs, order)), resolution);
      DetectReady(ids, order, TracksOf(db.runs, order), key, areaRow.fields.boundary)
  }

  ghost predicate Misplaced(db: DB, area: nat, run: nat)
    requires run in db.runs
  {
    db.runs[run].data.plan !in db.plans || db.plans[db.runs[run].data.plan].area != area
  }

  ghost predicate Misfit(db: DB, area: nat, run: nat)
    requires run in db.runs
  {
    Misplaced(db, area, run) || db.runs[run].state != Processed
  }

  ghost function FirstMisfit(db: DB, area: nat, order: seq<nat>, from: nat): (k: nat)
    requires from <= |order| && forall k :: 0 <= k < |order| ==> order[k] in db.runs
    requires exists k :: from <= k < |order| && Misfit(db, area, order[k])
    ensures from <= k < |order| && Misfit(db, area, order[k])
    ensures forall j :: from <= j < k ==> !Misfit(db, area, order[j])
    decreases |order| - from
  {
    if Misfit(db, area, order[from]) then from else FirstMisfit(db, area, order, from + 1)
  }

  /** One atomic operation of a thread. `order` is the row order the database happens to use. */
  ghost function Advance(hypot: Hypot, db: DB, thread: Thread, order: seq<nat>): (DB, Thread) {
    match thread
    case Finished(_) => (db, thread)
    case AreaChecked(code, fields) =>
      (match InsertArea(db, AreaRow(code, fields, 1))
       case None => (db, Finished(Failed(DuplicateResource)))
       case Some(after) => (after, Finished(Done)))
    case AreaRead(id, expected, _, fields) =>
      (match UpdateArea(db, id, expected, fields)
       case None => (db, Finished(Failed(VersionConflict)))
       case Some(after) => (after, Finished(Done)))
    case PlanChecked(area, plan) => AddPlan(db, PlanRow(area, plan, DraftPlan, 1))
    case PlanRead(id, expected, _, plan) =>
      (match UpdatePlan(db, id, expected, plan)
       case None => (db, Finished(Failed(VersionConflict)))
       case Some(after) => (after, Finished(Done)))
    case LockRead(id, expected, _) =>
      (match MovePlan(db, id, expected, DraftPlan, LockedPlan)
       case None => (db, Finished(Failed(VersionConflict)))
       case Some(after) => (after, Finished(Done)))
    case CopyRead(before) => AddPlan(db, CopyOf(before))
    case ImportRead(data) =>
      (match RunByChecksum(db, ChecksumOf(data))
       case Some(id) => (db, Finished(Existing(id)))
       case None => (db, ImportMissed(data)))
    case ImportMissed(data) =>
      (match InsertRun(db, RunRow(data, Imported, 1))
       case None => (db, Finished(Failed(DuplicateResource)))
       case Some(after) => (after, Finished(Done)))
    case RunRead(id, expected, before, target) =>
      (match MoveRun(db, id, expected, before.state, target)
       case None => (db, Finished(Failed(VersionConflict)))
       case Some(after) => (after, Finished(Done)))
    case DetectRead(area, areaRow, ids, algorithm, requested) =>
      if IsListing(order, ids, db.runs) then (db, ReadRuns(db, area, areaRow, ids, order, algorithm, requested))
      else (db, thread)
    case DetectReady(ids, listed, tracks, key, boundary) =>
      (match GapByKey(db, key)
       case Some(id) => (db, Finished(Existing(id)))
       case None => (db, DetectMissed(ids, listed, tracks, key, boundary)))
    case DetectMissed(ids, _, tracks, key, boundary) => StoreGap(db, ids, tracks, key, boundary)
    case GapRead(id, expected, before, target, note) =>
      (match MoveGap(db, id, expected, before.state, target, WithNote(before.explanation, note))
       case None => (db, Finished(Failed(if GapMatches(db, id, expected, before.state) then StorageFailed else VersionConflict)))
       case Some(after) => (after, GapMoved(id, before, after.gaps[id])))
    case GapMoved(id, before, written) =>
      if id in db.gaps then (db, GapReread(id, before, written, db.gaps[id])) else (db, Finished(Failed(NotFound)))
    case GapReread(id, before, _, after) =>
      (db.(audits := db.audits + [AuditRow(id, before, after)]), Finished(Done))
    case ReplayRead(run, row, key) =>
      (match ReplayByKey(db, key)
       case Some(_) => (db, Finished(Failed(ReplayDuplicate)))
       case None => (db, ReplayMissed(run, row, key)))
    case ReplayMissed(run, row, key) => StoreReplay(hypot, db, run, row, key)
  }

  function AddPlan(db: DB, row: PlanRow): (DB, Thread) {
    match InsertPlan(db, row)
    case None => (db, Finished(Failed(StorageFailed)))
    case Some(after) => (after, Finished(Done))
  }

  /** A copy starts as a draft, one version above its source. */
  function CopyOf(source: PlanRow): PlanRow {
    source.(state := DraftPlan, version := source.version + 1,
            fields := source.fields.(name := source.fields.name + COPY_MARK))
  }

  ghost function StoreGap(db: DB, ids: seq<nat>, tracks: seq<Track>, key: CoverageKey, boundary: Polygon): (DB, Thread) {
    if !IsPolygon(boundary) then (db, Finished(Failed(GeometryInvalid)))
    else
      PolygonHasVertices(boundary);
      match Assess(boundary, tracks, key.resolution)
      case Err(_) => (db, Finished(Failed(CoverageInvalid)))
      case Ok(result) =>
        var data := GapData(ids, key, result, SeverityForRatio(result.gapRatio), boundary);
        var text := Analysed(key.resolution, result.sampleCells, result.filteredFragments);
        match InsertGap(db, GapRow(data, Detected, text, 1))
        case None => (db, Finished(Failed(if |text| > MAX_EXPLANATION then StorageFailed else DuplicateResource)))
        case Some(after) => (after, Finished(Done))
  }

  ghost function ReplayOf(hypot: Hypot, row: RunRow, params: Params): Result<Snapshot, ReplayError> {
    Replayed(hypot, row.data.track, row.data.swath, NavBaseAccuracy(row.data.navigation),
             row.data.startedAt, row.data.endedAt, params)
  }

  function ReplayFailure(error: ReplayError): Failure {
    match error
    case InvalidInput => ReplayInvalid
    case TooManySamples => SampleOverflow
    case GridTooLarge => ReplayGridTooLarge
  }

  ghost function StoreReplay(hypot: Hypot, db: DB, run: nat, row: RunRow, key: ReplayKey): (DB, Thread) {
    match ReplayOf(hypot, row, key.params)
    case Err(error) => (db, Finished(Failed(ReplayFailure(error))))
    case Ok(snapshot) =>
      match InsertReplay(db, ReplayRow(run, key, snapshot))
      case None => (db, Finished(Failed(ReplayDuplicate)))
      case Some(after) => (after, Finished(Done))
  }

  // ----- runs

  datatype System = System(db: DB, threads: map<nat, Thread>)

  const INITIAL := System(EMPTY, map[])

  datatype Event =
    | Start(thread: nat, request: Request)
    | Step(thread: nat, order: seq<nat>)

  ghost function Apply(hypot: Hypot, s: System, e: Event): System {
    match e
    case Start(t, request) =>
      if t in s.threads then s else s.(threads := s.threads[t := Begin(s.db, request)])
    case Step(t, order) =>
      if t !in s.threads then s
      else
        var (db, thread) := Advance(hypot, s.db, s.threads[t], order);
        System(db, s.threads[t := thread])
  }

  /** The state after a whole run. */
  ghost function Exec(hypot: Hypot, s: System, events: seq<Event>): System {
    if |events| == 0 then s
    else Apply(hypot, Exec(hypot, s, events[..|events| - 1]), events[|events| - 1])
  }
}
