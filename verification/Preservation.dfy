/** Every step of every request keeps the invariant, so it holds in every reachable state. */
module Preservation {
  import opened Euclid
  import opened Rings
  import opened Coverage
  import opened CoverageLaws
  import opened States
  import opened Replay
  import opened Records
  import opened Services
  import opened Evolution
  import opened Invariant
  import opened Text

  // ----- what a change of one table leaves alone

  lemma GapsStay(a: DB, b: DB)
    requires RunsEvolve(a, b) && b.gaps == a.gaps && GapsOk(a)
    ensures GapsOk(b)
  {
    hide GapOk, RunsEvolve;
    forall id | id in b.gaps ensures GapOk(b, b.gaps[id]) {
      GapStays(a, b, a.gaps[id]);
    }
  }

  lemma ReplaysStay(hypot: Hypot, a: DB, b: DB)
    requires RunsEvolve(a, b) && b.replays == a.replays && ReplaysOk(hypot, a)
    ensures ReplaysOk(hypot, b)
  {
    hide ReplayOk, RunsEvolve;
    forall id | id in b.replays ensures ReplayOk(hypot, b, b.replays[id]) {
      ReplayStays(hypot, a, b, a.replays[id]);
    }
  }

  lemma RunsOkStay(a: DB, b: DB)
    requires PlansEvolve(a, b) && b.runs == a.runs && RunsOk(a)
    ensures RunsOk(b)
  {
    hide PlansEvolve;
    forall id | id in b.runs ensures RunOk(b, b.runs[id]) {
      LockedStays(a, b, a.runs[id].data.plan);
    }
  }

  lemma TablesKept(a: DB, b: DB)
    ensures a.areas == b.areas && AreasOk(a) ==> AreasOk(b)
    ensures a.runs == b.runs && ChecksumsUnique(a) ==> ChecksumsUnique(b)
    ensures a.gaps == b.gaps && GapKeysUnique(a) ==> GapKeysUnique(b)
    ensures a.replays == b.replays && ReplayKeysUnique(a) ==> ReplayKeysUnique(b)
  {
    hide AreaOk;
  }

  lemma PlansKept(a: DB, b: DB)
    requires AreasEvolve(a, b) && a.plans == b.plans && PlansOk(a)
    ensures PlansOk(b)
  {
    hide AreaEvolves;
  }

  ghost predicate Kept(hypot: Hypot, a: DB, next: (DB, Thread)) {
    DbOk(hypot, next.0) && Evolves(a, next.0) && ThreadOk(next.0, next.1)
  }

  // ----- a row put into a table, new or in the place of an earlier state of it

  lemma AreaPut(a: DB, id: nat, row: AreaRow, next: nat)
    requires KeysOk(a) && AreasOk(a) && AreaOk(row) && id < next && a.next <= next
    requires id in a.areas ==> AreaEvolves(a.areas[id], row)
    ensures var b := a.(areas := a.areas[id := row], next := next); KeysOk(b) && AreasOk(b) && AreasEvolve(a, b)
  {
    hide AreaOk;
  }

  lemma PutArea(hypot: Hypot, a: DB, id: nat, row: AreaRow, next: nat)
    requires DbOk(hypot, a) && AreaOk(row) && id < next && a.next <= next
    requires id in a.areas ==> AreaEvolves(a.areas[id], row)
    ensures var b := a.(areas := a.areas[id := row], next := next); DbOk(hypot, b) && Evolves(a, b)
  {
    hide KeysOk, AreasOk, PlansOk, RunsOk, ChecksumsUnique, GapsOk, GapKeysUnique, ReplaysOk, ReplayKeysUnique,
         AreasEvolve, PlansEvolve, RunsEvolve, GapsEvolve, ReplaysEvolve, AreaOk, AreaEvolves, PlanEvolves, RunOk,
         RunEvolves, GapOk, GapEvolves, ReplayOk;
    var b := a.(areas := a.areas[id := row], next := next);
    AreaPut(a, id, row, next);
    TablesStay(a, b);
    TablesKept(a, b);
    PlansKept(a, b);
    RunsOkStay(a, b);
    GapsStay(a, b);
    ReplaysStay(hypot, a, b);
  }

  lemma PlanPut(a: DB, id: nat, row: PlanRow, next: nat)
    requires KeysOk(a) && PlansOk(a) && row.version >= 1 && row.area in a.areas && id < next && a.next <= next
    requires id in a.plans ==> PlanEvolves(a.plans[id], row)
    ensures var b := a.(plans := a.plans[id := row], next := next); KeysOk(b) && PlansOk(b) && PlansEvolve(a, b)
  {
  }

  lemma PutPlan(hypot: Hypot, a: DB, id: nat, row: PlanRow, next: nat)
    requires DbOk(hypot, a) && row.version >= 1 && row.area in a.areas && id < next && a.next <= next
    requires id in a.plans ==> PlanEvolves(a.plans[id], row)
    ensures var b := a.(plans := a.plans[id := row], next := next); DbOk(hypot, b) && Evolves(a, b)
  {
    hide KeysOk, AreasOk, PlansOk, RunsOk, ChecksumsUnique, GapsOk, GapKeysUnique, ReplaysOk, ReplayKeysUnique,
         AreasEvolve, PlansEvolve, RunsEvolve, GapsEvolve, ReplaysEvolve, AreaOk, AreaEvolves, PlanEvolves, RunOk,
         RunEvolves, GapOk, GapEvolves, ReplayOk;
    var b := a.(plans := a.plans[id := row], next := next);
    PlanPut(a, id, row, next);
    TablesStay(a, b);
    TablesKept(a, b);
    RunsOkStay(a, b);
    GapsStay(a, b);
    ReplaysStay(hypot, a, b);
  }

  ghost predicate FreshChecksum(db: DB, data: RunData) {
    forall id :: id in db.runs ==> ChecksumOf(db.runs[id].data) != ChecksumOf(data)
  }

  lemma RunPut(a: DB, id: nat, row: RunRow, next: nat)
    requires KeysOk(a) && RunsOk(a) && ChecksumsUnique(a) && RunOk(a, row) && id < next && a.next <= next
    requires if id in a.runs then RunEvolves(a.runs[id], row) else FreshChecksum(a, row.data)
    ensures var b := a.(runs := a.runs[id := row], next := next);
            KeysOk(b) && RunsOk(b) && ChecksumsUnique(b) && RunsEvolve(a, b)
  {
    hide RunVersion, Usable, ChecksumOf;
  }

  lemma PutRun(hypot: Hypot, a: DB, id: nat, row: RunRow, next: nat)
    requires DbOk(hypot, a) && RunOk(a, row) && id < next && a.next <= next
    requires if id in a.runs then RunEvolves(a.runs[id], row) else FreshChecksum(a, row.data)
    ensures var b := a.(runs := a.runs[id := row], next := next); DbOk(hypot, b) && Evolves(a, b)
  {
    hide KeysOk, AreasOk, PlansOk, RunsOk, ChecksumsUnique, GapsOk, GapKeysUnique, ReplaysOk, ReplayKeysUnique,
         AreasEvolve, PlansEvolve, RunsEvolve, GapsEvolve, ReplaysEvolve, AreaOk, AreaEvolves, PlanEvolves, RunOk,
         RunEvolves, GapOk, GapEvolves, ReplayOk;
    hide FreshChecksum;
    var b := a.(runs := a.runs[id := row], next := next);
    RunPut(a, id, row, next);
    TablesStay(a, b);
    TablesKept(a, b);
    PlansKept(a, b);
    GapsStay(a, b);
    ReplaysStay(hypot, a, b);
  }

  ghost predicate FreshGap(db: DB, key: CoverageKey) {
    forall id :: id in db.gaps ==> db.gaps[id].data.key != key
  }

  lemma GapPut(a: DB, id: nat, row: GapRow, next: nat)
    requires KeysOk(a) && GapsOk(a) && GapKeysUnique(a) && GapOk(a, row) && id < next && a.next <= next
    requires if id in a.gaps then GapEvolves(a.gaps[id], row) else FreshGap(a, row.data.key)
    ensures var b := a.(gaps := a.gaps[id := row], next := next);
            KeysOk(b) && GapsOk(b) && GapKeysUnique(b) && GapsEvolve(a, b)
  {
    hide GapVersion, TextOk, AllUsable, SnapshotOk;
  }

  lemma PutGap(hypot: Hypot, a: DB, id: nat, row: GapRow, next: nat)
    requires DbOk(hypot, a) && GapOk(a, row) && id < next && a.next <= next
    requires if id in a.gaps then GapEvolves(a.gaps[id], row) else FreshGap(a, row.data.key)
    ensures var b := a.(gaps := a.gaps[id := row], next := next); DbOk(hypot, b) && Evolves(a, b)
  {
    hide KeysOk, AreasOk, PlansOk, RunsOk, ChecksumsUnique, GapsOk, GapKeysUnique, ReplaysOk, ReplayKeysUnique,
         AreasEvolve, PlansEvolve, RunsEvolve, GapsEvolve, ReplaysEvolve, AreaOk, AreaEvolves, PlanEvolves, RunOk,
         RunEvolves, GapOk, GapEvolves, ReplayOk;
    hide FreshGap;
    var b := a.(gaps := a.gaps[id := row], next := next);
    GapPut(a, id, row, next);
    TablesStay(a, b);
    TablesKept(a, b);
    PlansKept(a, b);
    RunsOkStay(a, b);
    ReplaysStay(hypot, a, b);
  }

  ghost predicate FreshReplay(db: DB, key: ReplayKey) {
    forall id :: id in db.replays ==> db.replays[id].key != key
  }

  lemma ReplayPut(hypot: Hypot, a: DB, id: nat, row: ReplayRow, next: nat)
    requires KeysOk(a) && ReplaysOk(hypot, a) && ReplayKeysUnique(a) && ReplayOk(hypot, a, row) && id < next && a.next <= next
    requires id !in a.replays && FreshReplay(a, row.key)
    ensures var b := a.(replays := a.replays[id := row], next := next);
            KeysOk(b) && ReplaysOk(hypot, b) && ReplayKeysUnique(b) && ReplaysEvolve(a, b)
  {
    hide ReplayOf, Usable;
  }

  lemma PutReplay(hypot: Hypot, a: DB, id: nat, row: ReplayRow, next: nat)
    requires DbOk(hypot, a) && ReplayOk(hypot, a, row) && id < next && a.next <= next
    requires id !in a.replays && FreshReplay(a, row.key)
    ensures var b := a.(replays := a.replays[id := row], next := next); DbOk(hypot, b) && Evolves(a, b)
  {
    hide KeysOk, AreasOk, PlansOk, RunsOk, ChecksumsUnique, GapsOk, GapKeysUnique, ReplaysOk, ReplayKeysUnique,
         AreasEvolve, PlansEvolve, RunsEvolve, GapsEvolve, ReplaysEvolve, AreaOk, AreaEvolves, PlanEvolves, RunOk,
         RunEvolves, GapOk, GapEvolves, ReplayOk;
    hide FreshReplay;
    var b := a.(replays := a.replays[id := row], next := next);
    ReplayPut(hypot, a, id, row, next);
    TablesStay(a, b);
    TablesKept(a, b);
    PlansKept(a, b);
    RunsOkStay(a, b);
    GapsStay(a, b);
  }

  // ----- one repository operation at a time

  lemma InTables(hypot: Hypot, db: DB)
    requires DbOk(hypot, db)
    ensures KeysOk(db) && AreasOk(db) && PlansOk(db) && RunsOk(db) && GapsOk(db)
  {
    hide KeysOk, AreasOk, PlansOk, RunsOk, GapsOk, ReplaysOk;
  }

  lemma UpdateAreaKeeps(hypot: Hypot, a: DB, id: nat, expected: nat, fields: AreaFields)
    requires DbOk(hypot, a) && BoundArea(fields) && ValidGeometry(fields)
    requires UpdateArea(a, id, expected, fields).Some?
    ensures var b := UpdateArea(a, id, expected, fields).value; DbOk(hypot, b) && Evolves(a, b)
  {
    hide DbOk, Evolves, BoundArea, ValidGeometry;
    InTables(hypot, a);
    PutArea(hypot, a, id, a.areas[id].(fields := fields, version := expected + 1), a.next);
  }

  lemma UpdatePlanKeeps(hypot: Hypot, a: DB, id: nat, expected: nat, fields: PlanFields)
    requires DbOk(hypot, a) && UpdatePlan(a, id, expected, fields).Some?
    ensures var b := UpdatePlan(a, id, expected, fields).value; DbOk(hypot, b) && Evolves(a, b)
  {
    hide DbOk, Evolves;
    InTables(hypot, a);
    PutPlan(hypot, a, id, a.plans[id].(fields := fields, version := expected + 1), a.next);
  }

  lemma LockPlanKeeps(hypot: Hypot, a: DB, id: nat, expected: nat)
    requires DbOk(hypot, a) && MovePlan(a, id, expected, DraftPlan, LockedPlan).Some?
    ensures var b := MovePlan(a, id, expected, DraftPlan, LockedPlan).value; DbOk(hypot, b) && Evolves(a, b)
  {
    hide DbOk, Evolves;
    InTables(hypot, a);
    PutPlan(hypot, a, id, a.plans[id].(state := LockedPlan, version := expected + 1), a.next);
  }

  lemma MoveRunHits(a: DB, id: nat, expected: nat, before: RunRow, target: RunState)
    requires id in a.runs && RunEvolves(before, a.runs[id])
    requires MoveRun(a, id, expected, before.state, target).Some?
    ensures a.runs[id] == before && before.version == expected
  {
  }

  lemma MovedRun(db: DB, before: RunRow, target: RunState)
    requires RunOk(db, before) && before.state.CanTransition(target)
    requires target == QualityChecked ==> before.data.navigation != Invalid
    ensures RunOk(db, before.(state := target, version := before.version + 1))
    ensures RunEvolves(before, before.(state := target, version := before.version + 1))
  {
  }

  lemma MoveRunKeeps(hypot: Hypot, a: DB, id: nat, expected: nat, before: RunRow, target: RunState)
    requires DbOk(hypot, a) && id in a.runs && RunEvolves(before, a.runs[id]) && before.state.CanTransition(target)
    requires target == QualityChecked ==> before.data.navigation != Invalid
    requires MoveRun(a, id, expected, before.state, target).Some?
    ensures var b := MoveRun(a, id, expected, before.state, target).value; DbOk(hypot, b) && Evolves(a, b)
  {
    hide DbOk, Evolves, RunOk, RunEvolves;
    InTables(hypot, a);
    MoveRunHits(a, id, expected, before, target);
    MovedRun(a, before, target);
    PutRun(hypot, a, id, before.(state := target, version := before.version + 1), a.next);
  }

  /** A conditional update that also names the state can only hit the row the request read. */
  lemma MoveGapHits(a: DB, id: nat, expected: nat, before: GapRow)
    requires id in a.gaps && GapEvolves(before, a.gaps[id]) && GapMatches(a, id, expected, before.state)
    ensures a.gaps[id] == before && before.version == expected
  {
  }

  lemma MovedGap(db: DB, before: GapRow, target: GapState, note: string)
    requires GapOk(db, before) && before.state.CanTransition(target)
    requires |WithNote(before.explanation, note)| <= MAX_EXPLANATION
    ensures var after := before.(state := target, explanation := WithNote(before.explanation, note), version := before.version + 1);
            GapOk(db, after) && GapEvolves(before, after) && before != after
  {
    hide AllUsable, SnapshotOk;
  }

  lemma MoveGapKeeps(hypot: Hypot, a: DB, id: nat, expected: nat, before: GapRow, target: GapState, note: string)
    requires DbOk(hypot, a) && id in a.gaps && GapEvolves(before, a.gaps[id]) && before.state.CanTransition(target)
    requires MoveGap(a, id, expected, before.state, target, WithNote(before.explanation, note)).Some?
    ensures var b := MoveGap(a, id, expected, before.state, target, WithNote(before.explanation, note)).value;
            DbOk(hypot, b) && Evolves(a, b) && GapEvolves(before, b.gaps[id]) && before != b.gaps[id]
  {
    hide DbOk, Evolves, GapOk, GapEvolves, WithNote;
    InTables(hypot, a);
    MoveGapHits(a, id, expected, before);
    MovedGap(a, before, target, note);
    var after := before.(state := target, explanation := WithNote(before.explanation, note), version := before.version + 1);
    PutGap(hypot, a, id, after, a.next);
  }

  lemma InsertAreaKeeps(hypot: Hypot, a: DB, row: AreaRow)
    requires DbOk(hypot, a) && AreaOk(row) && InsertArea(a, row).Some?
    ensures DbOk(hypot, InsertArea(a, row).value) && Evolves(a, InsertArea(a, row).value)
  {
    hide DbOk, Evolves, AreaOk;
    InTables(hypot, a);
    PutArea(hypot, a, a.next, row, a.next + 1);
  }

  lemma AddPlanKeeps(hypot: Hypot, a: DB, row: PlanRow)
    requires DbOk(hypot, a) && row.version >= 1 && row.area in a.areas
    ensures Kept(hypot, a, AddPlan(a, row))
  {
    hide DbOk, Evolves;
    InTables(hypot, a);
    EvolvesReflexive(a);
    if InsertPlan(a, row).Some? {
      PutPlan(hypot, a, a.next, row, a.next + 1);
    }
  }

  lemma InsertRunKeeps(hypot: Hypot, a: DB, data: RunData)
    requires DbOk(hypot, a) && data.plan in a.plans && a.plans[data.plan].state == LockedPlan && DataOk(data)
    requires InsertRun(a, RunRow(data, Imported, 1)).Some?
    ensures var b := InsertRun(a, RunRow(data, Imported, 1)).value; DbOk(hypot, b) && Evolves(a, b)
  {
    hide DbOk, Evolves, ChecksumOf;
    InTables(hypot, a);
    PutRun(hypot, a, a.next, RunRow(data, Imported, 1), a.next + 1);
  }

  lemma InsertGapKeeps(hypot: Hypot, a: DB, row: GapRow)
    requires DbOk(hypot, a) && GapOk(a, row) && InsertGap(a, row).Some?
    ensures DbOk(hypot, InsertGap(a, row).value) && Evolves(a, InsertGap(a, row).value)
  {
    hide DbOk, Evolves, GapOk;
    InTables(hypot, a);
    PutGap(hypot, a, a.next, row, a.next + 1);
  }

  lemma InsertReplayKeeps(hypot: Hypot, a: DB, row: ReplayRow)
    requires DbOk(hypot, a) && ReplayOk(hypot, a, row) && InsertReplay(a, row).Some?
    ensures DbOk(hypot, InsertReplay(a, row).value) && Evolves(a, InsertReplay(a, row).value)
  {
    hide DbOk, Evolves, ReplayOk;
    InTables(hypot, a);
    PutReplay(hypot, a, a.next, row, a.next + 1);
  }

  // ----- one step of a thread

  lemma ListsExisting(order: seq<nat>, ids: seq<nat>, runs: map<nat, RunRow>)
    requires IsListing(order, ids, runs)
    ensures forall k :: 0 <= k < |order| ==> order[k] in runs
  {
  }

  /** A detection that passes its checks holds the tracks and checksums of usable runs. */
  lemma ReadRunsOk(db: DB, area: nat, row: AreaRow, ids: seq<nat>, order: seq<nat>, algorithm: string, requested: real)
    requires IsListing(order, ids, db.runs) && NoRepeats(ids) && AreaOk(row)
    requires requested == 0.0 || 0.0 < requested <= 100.0
    ensures ThreadOk(db, ReadRuns(db, area, row, ids, order, algorithm, requested))
  {
    hide ValidBoundary, TracksOf, Checksums, ProjectedCRS, IsListing, Misplaced;
    ListsExisting(order, ids, db.runs);
    if |order| == |ids| && !(exists k :: 0 <= k < |order| && Misfit(db, area, order[k])) {
      ListingIsPermutation(order, ids, db.runs);
      forall k | 0 <= k < |order| ensures order[k] in db.runs && Usable(db.runs[order[k]].state) {
        assert !Misfit(db, area, order[k]);
      }
      forall k | 0 <= k < |ids| ensures ids[k] in db.runs && Usable(db.runs[ids[k]].state) {
        assert ids[k] in multiset(order);
        var j :| 0 <= j < |order| && order[j] == ids[k];
        assert !Misfit(db, area, order[j]);
      }
    }
  }

  /** What a detection stores agrees with its source runs, whatever order they were listed in. */
  lemma StoreGapKeeps(hypot: Hypot, db: DB, ids: seq<nat>, order: seq<nat>, tracks: seq<Track>, key: CoverageKey, boundary: Polygon)
    requires DbOk(hypot, db) && DetectOk(db, ids, order, tracks, key, boundary)
    ensures Kept(hypot, db, StoreGap(db, ids, tracks, key, boundary))
  {
    hide DbOk, Evolves, Assess, TracksOf, Checksums, Analysed;
    EvolvesReflexive(db);
    if IsPolygon(boundary) {
      PolygonHasVertices(boundary);
      RunsPermuted(db.runs, ids, order);
      TracksPermuted(boundary, TracksOf(db.runs, ids), tracks, key.resolution);
      var assessed := Assess(boundary, tracks, key.resolution);
      if assessed.Ok? {
        var result := assessed.value;
        var data := GapData(ids, key, result, SeverityForRatio(result.gapRatio), boundary);
        assert key.resolution > 0.0 by { ResolutionPositive(boundary, tracks, key.resolution); }
        var row := GapRow(data, Detected, Analysed(key.resolution, result.sampleCells, result.filteredFragments), 1);
        if InsertGap(db, row).Some? {
          assert GapOk(db, row);
          InsertGapKeeps(hypot, db, row);
        }
      }
    }
  }

  lemma StoreReplayKeeps(hypot: Hypot, db: DB, run: nat, before: RunRow, key: ReplayKey)
    requires DbOk(hypot, db) && ReplayThreadOk(db, run, before, key)
    ensures Kept(hypot, db, StoreReplay(hypot, db, run, before, key))
  {
    hide DbOk, Evolves, Replayed;
    EvolvesReflexive(db);
    var replay := ReplayOf(hypot, before, key.params);
    if replay.Ok? {
      var row := ReplayRow(run, key, replay.value);
      assert ReplayOk(hypot, db, row);
      if InsertReplay(db, row).Some? {
        InsertReplayKeeps(hypot, db, row);
      }
    }
  }

  /** One step of any thread, in any database state, keeps the invariant. */
  lemma AdvanceKeeps(hypot: Hypot, db: DB, thread: Thread, order: seq<nat>)
    requires DbOk(hypot, db) && ThreadOk(db, thread)
    ensures Kept(hypot, db, Advance(hypot, db, thread, order))
  {
    hide DbOk, Evolves, BoundArea, ValidGeometry, ValidBoundary, DetectOk, ReplayThreadOk, StoreGap, StoreReplay, ReadRuns,
         NoRepeats, IsListing, AddPlan, AreaEvolves, PlanEvolves, RunEvolves, GapEvolves, RunByChecksum, GapByKey,
         ReplayByKey, WithNote, ChecksumOf;
    EvolvesReflexive(db);
    match thread
    case AreaChecked(code, fields) =>
      if InsertArea(db, AreaRow(code, fields, 1)).Some? { InsertAreaKeeps(hypot, db, AreaRow(code, fields, 1)); }
    case AreaRead(id, expected, _, fields) =>
      if UpdateArea(db, id, expected, fields).Some? { UpdateAreaKeeps(hypot, db, id, expected, fields); }
    case PlanChecked(area, plan) => AddPlanKeeps(hypot, db, PlanRow(area, plan, DraftPlan, 1));
    case PlanRead(id, expected, _, plan) =>
      if UpdatePlan(db, id, expected, plan).Some? { UpdatePlanKeeps(hypot, db, id, expected, plan); }
    case LockRead(id, expected, _) =>
      if MovePlan(db, id, expected, DraftPlan, LockedPlan).Some? { LockPlanKeeps(hypot, db, id, expected); }
    case CopyRead(before) => AddPlanKeeps(hypot, db, CopyOf(before));
    case ImportRead(_) =>
    case ImportMissed(data) =>
      if InsertRun(db, RunRow(data, Imported, 1)).Some? { InsertRunKeeps(hypot, db, data); }
    case RunRead(id, expected, before, target) =>
      if MoveRun(db, id, expected, before.state, target).Some? { MoveRunKeeps(hypot, db, id, expected, before, target); }
    case DetectRead(area, row, ids, algorithm, requested) =>
      if IsListing(order, ids, db.runs) { ReadRunsOk(db, area, row, ids, order, algorithm, requested); }
    case DetectReady(_, _, _, _, _) =>
    case DetectMissed(ids, listed, tracks, key, boundary) => StoreGapKeeps(hypot, db, ids, listed, tracks, key, boundary);
    case GapRead(id, expected, before, target, note) => GapReadKeeps(hypot, db, id, expected, before, target, note);
    case GapMoved(id, _, _) => GapSame(db.gaps[id]);
    case GapReread(id, before, _, after) => AuditKeeps(hypot, db, AuditRow(id, before, after));
    case ReplayRead(_, _, _) =>
    case ReplayMissed(run, before, key) => StoreReplayKeeps(hypot, db, run, before, key);
    case Finished(_) =>
  }

  lemma GapSame(gap: GapRow)
    ensures GapEvolves(gap, gap)
  {
  }

  lemma GapReadKeeps(hypot: Hypot, db: DB, id: nat, expected: nat, before: GapRow, target: GapState, note: string)
    requires DbOk(hypot, db) && id in db.gaps && GapEvolves(before, db.gaps[id]) && before.state.CanTransition(target)
    ensures Kept(hypot, db, Advance(hypot, db, GapRead(id, expected, before, target, note), []))
  {
    hide DbOk, Evolves, GapEvolves, WithNote;
    EvolvesReflexive(db);
    if MoveGap(db, id, expected, before.state, target, WithNote(before.explanation, note)).Some? {
      MoveGapKeeps(hypot, db, id, expected, before, target, note);
      var b := MoveGap(db, id, expected, before.state, target, WithNote(before.explanation, note)).value;
      GapSame(b.gaps[id]);
    }
  }

  lemma SameKeys(a: DB, b: DB)
    requires KeysOk(a) && b == a.(audits := b.audits)
    ensures KeysOk(b)
  {
  }

  /** Writing an audit entry changes no row. */
  lemma AuditKeeps(hypot: Hypot, db: DB, entry: AuditRow)
    requires DbOk(hypot, db)
    ensures DbOk(hypot, db.(audits := db.audits + [entry])) && Evolves(db, db.(audits := db.audits + [entry]))
  {
    hide KeysOk, AreasOk, PlansOk, RunsOk, ChecksumsUnique, GapsOk, GapKeysUnique, ReplaysOk, ReplayKeysUnique,
         AreasEvolve, PlansEvolve, RunsEvolve, GapsEvolve, ReplaysEvolve;
    var b := db.(audits := db.audits + [entry]);
    assert KeysOk(b) by { SameKeys(db, b); }
    TablesStay(db, b);
    TablesKept(db, b);
    PlansKept(db, b);
    GapsStay(db, b);
    ReplaysStay(hypot, db, b);
    RunsOkStay(db, b);
  }

  // ----- the first step

  lemma BeginReplayOk(db: DB, run: nat, options: ReplayOptions)
    requires BoundOptions(options)
    ensures ThreadOk(db, BeginReplay(db, run, options))
  {
    hide Contains;
  }

  lemma AreaFacts(hypot: Hypot, db: DB, id: nat)
    requires DbOk(hypot, db) && id in db.areas
    ensures AreaOk(db.areas[id]) && ValidBoundary(db.areas[id].fields.boundary)
  {
    hide KeysOk, PlansOk, RunsOk, ChecksumsUnique, GapsOk, GapKeysUnique, ReplaysOk, ReplayKeysUnique, ValidBoundary, BoundArea;
  }

  lemma StatusFree(fields: AreaFields, status: AreaStatus)
    ensures BoundArea(fields.(status := status)) <==> BoundArea(fields)
    ensures ValidGeometry(fields.(status := status)) <==> ValidGeometry(fields)
  {
    hide HasPart;
  }

  lemma PlanFacts(hypot: Hypot, db: DB, id: nat)
    requires DbOk(hypot, db) && id in db.plans
    ensures db.plans[id].version >= 1 && db.plans[id].area in db.areas
  {
    hide KeysOk, AreasOk, RunsOk, ChecksumsUnique, GapsOk, GapKeysUnique, ReplaysOk, ReplayKeysUnique;
  }

  lemma BeginOk(hypot: Hypot, db: DB, request: Request)
    requires DbOk(hypot, db)
    ensures ThreadOk(db, Begin(db, request))
  {
    hide DbOk, BoundArea, ValidGeometry, ValidBoundary, ReplayThreadOk, BeginReplay, NoRepeats, HasPart, AreaOk;
    match request
    case ReplayRequest(run, options) => if Bound(request) { BeginReplayOk(db, run, options); }
    case DetectRequest(_, area, runs, _, _) =>
      UniqueIdsMeaning(runs);
      if area in db.areas { AreaFacts(hypot, db, area); }
    case CreateAreaRequest(_, fields) => StatusFree(fields, DraftArea);
    case CopyPlanRequest(id) => if id in db.plans { PlanFacts(hypot, db, id); }
    case _ =>
  }

  // ----- whole runs

  lemma InitialOk(hypot: Hypot)
    ensures SystemOk(hypot, INITIAL)
  {
  }

  lemma ThreadHolds(hypot: Hypot, s: System, t: nat)
    requires SystemOk(hypot, s) && t in s.threads
    ensures ThreadOk(s.db, s.threads[t])
  {
    hide ThreadOk, DbOk;
  }

  /** Any event, in any order with the others, keeps the invariant and only evolves the rows. */
  lemma ApplyOk(hypot: Hypot, s: System, e: Event)
    requires SystemOk(hypot, s)
    ensures SystemOk(hypot, Apply(hypot, s, e)) && Evolves(s.db, Apply(hypot, s, e).db)
  {
    hide DbOk, ThreadOk, Evolves, Advance, Begin;
    EvolvesReflexive(s.db);
    match e
    case Start(t, request) => BeginOk(hypot, s.db, request);
    case Step(t, order) =>
      if t in s.threads {
        AdvanceKeeps(hypot, s.db, s.threads[t], order);
        var next := Advance(hypot, s.db, s.threads[t], order);
        forall u | u in s.threads ensures ThreadOk(next.0, if u == t then next.1 else s.threads[u]) {
          ThreadStays(s.db, next.0, s.threads[u]);
        }
      }
  }

  /** Rows evolve over any whole run, from any state the invariant allows. */
  lemma {:induction false} ExecOk(hypot: Hypot, s: System, events: seq<Event>)
    requires SystemOk(hypot, s)
    ensures SystemOk(hypot, Exec(hypot, s, events)) && Evolves(s.db, Exec(hypot, s, events).db)
  {
    hide SystemOk, Evolves, Apply;
    EvolvesReflexive(s.db);
    if |events| > 0 {
      var last := |events| - 1;
      ExecOk(hypot, s, events[..last]);
      var mid := Exec(hypot, s, events[..last]);
      ApplyOk(hypot, mid, events[last]);
      EvolvesTransitive(s.db, mid.db, Apply(hypot, mid, events[last]).db);
    }
  }

  ghost function Run(hypot: Hypot, events: seq<Event>): System {
    Exec(hypot, INITIAL, events)
  }

  /** Every reachable state satisfies the invariant. */
  lemma Reachable(hypot: Hypot, events: seq<Event>)
    ensures SystemOk(hypot, Run(hypot, events))
  {
    InitialOk(hypot);
    ExecOk(hypot, INITIAL, events);
  }

  /** Running a longer list of events is running the rest from where the first part stopped. */
  lemma {:induction false} ExecSplit(hypot: Hypot, s: System, first: seq<Event>, rest: seq<Event>)
    ensures Exec(hypot, s, first + rest) == Exec(hypot, Exec(hypot, s, first), rest)
    decreases |rest|
  {
    hide Apply;
    if |rest| == 0 {
      assert first + rest == first;
    } else {
      var n := |rest| - 1;
      ExecSplit(hypot, s, first, rest[..n]);
      assert (first + rest)[..|first| + n] == first + rest[..n];
    }
  }

  /** What has been stored at any moment of a run only evolves until any later moment of it. */
  lemma RunEvolution(hypot: Hypot, events: seq<Event>, i: nat, j: nat)
    requires i <= j <= |events|
    ensures Evolves(Run(hypot, events[..i]).db, Run(hypot, events[..j]).db)
  {
    Reachable(hypot, events[..i]);
    assert events[..j] == events[..i] + events[i..j];
    ExecSplit(hypot, INITIAL, events[..i], events[i..j]);
    ExecOk(hypot, Run(hypot, events[..i]), events[i..j]);
  }
}
