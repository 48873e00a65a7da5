/** Runs from the empty database that break the promises which hold only under a condition. */
module Counterexamples {
  import opened Euclid
  import opened Options
  import opened Rings
  import opened Coverage
  import opened CoverageLaws
  import opened BoundaryLaws
  import opened Transects
  import opened States
  import opened Records
  import opened Services
  import opened Evolution
  import opened Invariant
  import opened Preservation
  import opened Runs
  import opened Text
  import opened Reviews
  import opened Transitions
  import opened Locking
  import opened Promises
  import opened Squares

  // ----- one survey, step by step

  const AREA := AreaFields("area", SquareAt(0.0), 1.0, "UTM5", 1.0, "team", DraftArea)
  const DATA := RunData(2, "run", "track", [[SPOT, SPOT]], Absent, 2.0, 0, 1, Good)

  const WITH_AREA := EMPTY.(areas := map[1 := AreaRow("code", AREA, 1)], next := 2)
  const WITH_PLAN := WITH_AREA.(plans := map[2 := PlanRow(1, SAMPLE_PLAN, DraftPlan, 1)], next := 3)
  const LOCKED := WITH_PLAN.(plans := map[2 := PlanRow(1, SAMPLE_PLAN, LockedPlan, 2)])

  function WithRun(state: RunState, version: nat): DB {
    LOCKED.(runs := map[3 := RunRow(DATA, state, version)], next := 4)
  }

  /** A request served at the end of a run by a thread not yet used. */
  lemma ServedNext(hypot: Hypot, events: seq<Event>, u: nat, request: Request, order: seq<nat>, n: nat)
    requires u !in Run(hypot, events).threads
    ensures var s := Run(hypot, events);
            var next := Alone(hypot, s.db, Begin(s.db, request), order, n);
            Run(hypot, events + Serve(u, request, order, n)) == System(next.0, s.threads[u := next.1])
  {
    hide Run, Begin, Alone, Serve;
    SplitRun(hypot, events, Serve(u, request, order, n));
    ServeAlone(hypot, Run(hypot, events), u, request, order, n);
  }

  lemma MetricName()
    ensures ProjectedCRS("UTM5")
  {
    assert "UTM5"[1..] == "TM5";
    assert "UTM5"[0] != "4326"[0];
    assert !HasPart("TM5", "4326");
  }

  lemma AreaAccepted(o: real)
    ensures BoundArea(AREA.(boundary := SquareAt(o))) && ValidGeometry(AREA.(boundary := SquareAt(o)))
  {
    SquareIsValid(o);
    MetricName();
    hide ValidBoundary, SquareAt, ProjectedCRS;
  }

  lemma AreaCreated(hypot: Hypot)
    ensures Alone(hypot, EMPTY, Begin(EMPTY, CreateAreaRequest("code", AREA)), [], 1) == (WITH_AREA, Finished(Done))
  {
    AreaAccepted(0.0);
    hide BoundArea, ValidGeometry, Alone, SquareAt;
    assert Begin(EMPTY, CreateAreaRequest("code", AREA)) == AreaChecked("code", AREA);
    AloneOnce(hypot, EMPTY, AreaChecked("code", AREA), []);
    assert InsertArea(EMPTY, AreaRow("code", AREA, 1)) == Some(WITH_AREA);
  }

  function WithDraft(plan: PlanFields): DB {
    WITH_AREA.(plans := map[2 := PlanRow(1, plan, DraftPlan, 1)], next := 3)
  }

  lemma PlanCreated(hypot: Hypot, plan: PlanFields)
    requires BoundPlan(plan) && ValidLines(plan.lines)
    ensures Alone(hypot, WITH_AREA, Begin(WITH_AREA, CreatePlanRequest(1, plan)), [], 1) == (WithDraft(plan), Finished(Done))
  {
    hide Alone, SquareAt;
    assert Begin(WITH_AREA, CreatePlanRequest(1, plan)) == PlanChecked(1, plan);
    AloneOnce(hypot, WITH_AREA, PlanChecked(1, plan), []);
  }

  lemma Imports(hypot: Hypot)
    ensures Alone(hypot, LOCKED, Begin(LOCKED, ImportRequest(DATA)), [], 2) == (WithRun(Imported, 1), Finished(Done))
  {
    hide Alone, SquareAt, ChecksumOf;
    assert Begin(LOCKED, ImportRequest(DATA)) == ImportRead(DATA);
    AloneStep(hypot, LOCKED, ImportRead(DATA), [], 2);
    AloneOnce(hypot, LOCKED, ImportMissed(DATA), []);
  }

  lemma Again<T>(k: nat, a: T, b: T)
    ensures map[k := a][k := b] == map[k := b]
  {
  }

  lemma Locks(hypot: Hypot)
    ensures Alone(hypot, WITH_PLAN, Begin(WITH_PLAN, LockPlanRequest(2, 1)), [], 1) == (LOCKED, Finished(Done))
  {
    hide Alone, Begin, SquareAt;
    PlanServed(hypot, WITH_PLAN, 2);
    Again(2, WITH_PLAN.plans[2], LOCKED.plans[2]);
  }

  lemma Moves(hypot: Hypot, from: RunState, version: nat, to: RunState)
    requires from.CanTransition(to) && to != Rejected && version > 0
    ensures Alone(hypot, WithRun(from, version), Begin(WithRun(from, version), MoveRunRequest(3, version, to, [])), [], 1)
         == (WithRun(to, version + 1), Finished(Done))
  {
    hide Alone, SquareAt;
    var db := WithRun(from, version);
    var row := db.runs[3];
    assert Begin(db, MoveRunRequest(3, version, to, [])) == RunRead(3, version, row, to);
    AloneOnce(hypot, db, RunRead(3, version, row, to), []);
    Again(3, row, RunRow(DATA, to, version + 1));
    assert MoveRun(db, 3, version, from, to) == Some(WithRun(to, version + 1));
  }

  lemma Imported1(hypot: Hypot) returns (events: seq<Event>)
    ensures Run(hypot, events).db == WithRun(Imported, 1)
    ensures forall t :: t in Run(hypot, events).threads ==> t < 4
  {
    hide Run, Begin, Alone, Serve, SquareAt;
    events := Planned(hypot, SAMPLE_PLAN);
    Locks(hypot);
    ServedNext(hypot, events, 2, LockPlanRequest(2, 1), [], 1);
    events := events + Serve(2, LockPlanRequest(2, 1), [], 1);
    Imports(hypot);
    ServedNext(hypot, events, 3, ImportRequest(DATA), [], 2);
    events := events + Serve(3, ImportRequest(DATA), [], 2);
  }

  /** An area, its locked plan, and one processed run over it. */
  lemma Surveyed(hypot: Hypot) returns (events: seq<Event>)
    ensures Run(hypot, events).db == WithRun(Processed, 4)
    ensures forall t :: t in Run(hypot, events).threads ==> t < 7
  {
    hide Run, Begin, Alone, Serve, SquareAt;
    events := Imported1(hypot);
    Moves(hypot, Imported, 1, QualityChecked);
    ServedNext(hypot, events, 4, MoveRunRequest(3, 1, QualityChecked, []), [], 1);
    events := events + Serve(4, MoveRunRequest(3, 1, QualityChecked, []), [], 1);
    Moves(hypot, QualityChecked, 2, Processing);
    ServedNext(hypot, events, 5, MoveRunRequest(3, 2, Processing, []), [], 1);
    events := events + Serve(5, MoveRunRequest(3, 2, Processing, []), [], 1);
    Moves(hypot, Processing, 3, Processed);
    ServedNext(hypot, events, 6, MoveRunRequest(3, 3, Processed, []), [], 1);
    events := events + Serve(6, MoveRunRequest(3, 3, Processed, []), [], 1);
  }

  lemma Planned(hypot: Hypot, plan: PlanFields) returns (events: seq<Event>)
    requires BoundPlan(plan) && ValidLines(plan.lines)
    ensures Run(hypot, events).db == WithDraft(plan)
    ensures forall t :: t in Run(hypot, events).threads ==> t < 2
  {
    hide Begin, Alone, Serve, SquareAt, BoundPlan, ValidLines;
    AreaCreated(hypot);
    ServedNext(hypot, [], 0, CreateAreaRequest("code", AREA), [], 1);
    var first := [] + Serve(0, CreateAreaRequest("code", AREA), [], 1);
    PlanCreated(hypot, plan);
    hide Run;
    ServedNext(hypot, first, 1, CreatePlanRequest(1, plan), [], 1);
    events := first + Serve(1, CreatePlanRequest(1, plan), [], 1);
  }

  // ----- imports and copies

  /** The same track sent again, with another navigation quality and under another code. */
  const RESENT := DATA.(navigation := Degraded, code := "other")

  lemma FindsRun(hypot: Hypot)
    ensures Alone(hypot, WithRun(Imported, 1), Begin(WithRun(Imported, 1), ImportRequest(RESENT)), [], 1)
         == (WithRun(Imported, 1), Finished(Existing(3)))
  {
    hide Alone, SquareAt;
    var db := WithRun(Imported, 1);
    assert Begin(db, ImportRequest(RESENT)) == ImportRead(RESENT);
    assert ChecksumOf(RESENT) == ChecksumOf(db.runs[3].data);
    AloneOnce(hypot, db, ImportRead(RESENT), []);
  }

  /** A run whose last request, an import with degraded navigation, is answered with a stored run of
      good navigation: every replay of it rests on a base accuracy of 1.5 where 6.0 was sent. */
  lemma ImportAnsweredByOther(hypot: Hypot) returns (events: seq<Event>)
    ensures var s := Run(hypot, events);
            && 4 in s.threads && s.threads[4] == Finished(Existing(3)) && 3 in s.db.runs
            && NavBaseAccuracy(s.db.runs[3].data.navigation) == 1.5 && NavBaseAccuracy(RESENT.navigation) == 6.0
  {
    hide Run, Begin, Alone, Serve, SquareAt;
    var imported := Imported1(hypot);
    FindsRun(hypot);
    ServedNext(hypot, imported, 4, ImportRequest(RESENT), [], 1);
    events := imported + Serve(4, ImportRequest(RESENT), [], 1);
  }

  /** A name of the greatest accepted length. */
  function LongName(): (name: string)
    ensures |name| == MAX_NAME
  {
    seq(MAX_NAME, _ => 'x')
  }

  function LongPlan(): PlanFields { SAMPLE_PLAN.(name := LongName()) }

  lemma CopyRefused(hypot: Hypot)
    ensures Alone(hypot, WithDraft(LongPlan()), Begin(WithDraft(LongPlan()), CopyPlanRequest(2)), [], 1)
         == (WithDraft(LongPlan()), Finished(Failed(StorageFailed)))
  {
    hide Alone, SquareAt;
    var db := WithDraft(LongPlan());
    AloneOnce(hypot, db, CopyRead(db.plans[2]), []);
  }

  /** A run at whose end a plan that was accepted cannot be copied: the suffix does not fit its name. */
  lemma CopyOutOfRoom(hypot: Hypot) returns (events: seq<Event>)
    ensures var s := Run(hypot, events);
            2 in s.db.plans && 2 in s.threads && s.threads[2] == Finished(Failed(StorageFailed))
  {
    hide Run, Begin, Alone, Serve, SquareAt;
    var planned := Planned(hypot, LongPlan());
    CopyRefused(hypot);
    ServedNext(hypot, planned, 2, CopyPlanRequest(2), [], 1);
    events := planned + Serve(2, CopyPlanRequest(2), [], 1);
  }

  // ----- one spacing of swath

  /** The line generated across the square, flown exactly with a swath of its spacing, leaves a gap
      that the analysis finds. */
  lemma OneSpacingLeavesGap() returns (lines: seq<Line>, r: CoverageResult)
    ensures Vertices(SquareAt(0.0)) != {} && IsGenerated(SquareAt(0.0), 0.0, 0.8, Ok(lines))
    ensures Assess(SquareAt(0.0), [Track(lines, 0.8)], 0.2) == Ok(r) && r.gapRatio > 0.0
  {
    hide Assess, Bounds, Inside, Contains, Vertices, SquareAt, Lines, Fills, IsGenerated, Analysable, Offset;
    var square := SquareAt(0.0);
    SquareAcross();
    SquareSampled();
    Known(square, 0.2);
    lines := Lines(false, Bounds(square), 0.8, 1);
    var track := Track(lines, 0.8);
    GeneratedHere(lines);
    Succeeds(square, [track], 0.2);
    r := Assess(square, [track], 0.2).value;
    Ranges(square, [track], 0.2, r);
    GridCoverageIff(square, 0.0, 0.8, 1, track, 0.2, r);
  }

  /** One line fits across the square, at 0.4; the next would lie outside. */
  lemma SquareAcross()
    ensures Vertices(SquareAt(0.0)) != {} && Bounds(SquareAt(0.0)) == Box(0.0, 0.0, 1.0, 1.0)
    ensures Fills(0.0, 1.0, 0.8, 1) && Offset(0.0, 0.8, 0) == 0.4
  {
    SquareBounds(0.0);
    hide Bounds, Vertices, SquareAt;
    OffsetStep(0.0, 0.8, 0);
  }

  lemma GeneratedHere(lines: seq<Line>)
    requires Vertices(SquareAt(0.0)) != {} && Bounds(SquareAt(0.0)) == Box(0.0, 0.0, 1.0, 1.0)
    requires lines == Lines(false, Bounds(SquareAt(0.0)), 0.8, 1) && Fills(0.0, 1.0, 0.8, 1)
    ensures IsGenerated(SquareAt(0.0), 0.0, 0.8, Ok(lines))
  {
    hide Lines, Fills, Bounds, Vertices;
    var r: Result<seq<Line>, PlanError> := Ok(lines);
    var b, h, n: nat := Bounds(SquareAt(0.0)), Horizontal(0.0), 1;
    assert Fills(AcrossMin(h, b), AcrossMax(h, b), 0.8, n);
    assert r == if n == 0 then Err(NoTransects) else Ok(Lines(h, b, 0.8, n));
  }

  /** One of the sampled centres is near the right edge. */
  lemma SquareSampled()
    ensures Analysable(SquareAt(0.0), 0.2) && (2, 4) in Inside(SquareAt(0.0), 0.2)
    ensures Centre(Bounds(SquareAt(0.0)), 0.2, (2, 4)) == Point(0.9, 0.5)
  {
    SquareBounds(0.0);
    SquareContains(0.0, Point(0.9, 0.5));
    hide Contains, Bounds, Vertices, SquareAt;
    var b := Bounds(SquareAt(0.0));
    assert Columns(b, 0.2) == 5 && Rows(b, 0.2) == 5;
    assert (2, 4) in Inside(SquareAt(0.0), 0.2);
  }

  // ----- a detection, and a stale one

  const KEY := CoverageKey(1, "UTM5", "grid", multiset([ChecksumOf(DATA)]), 1.0)
  const HEADER: seq<bv8> := [0, 0, 0, 0, 0, 0, 0, 0]
  const DETECT := DetectRequest(HEADER, 1, [3], "grid", 1.0)

  ghost function Figures(): CoverageResult
  {
    SquareRatio(0.0);
    Assess(SquareAt(0.0), HOVER, 1.0).value
  }

  lemma FiguresOf()
    ensures Vertices(SquareAt(0.0)) != {} && Assess(SquareAt(0.0), HOVER, 1.0) == Ok(Figures())
    ensures Figures().coverageRatio == 1.0 && Figures().sampleCells <= 60000 && Figures().filteredFragments <= 1
  {
    SquareRatio(0.0);
    hide Assess, SquareAt, Vertices;
    FewCells(SquareAt(0.0), HOVER, 1.0, Figures());
  }

  ghost function FirstText(): string {
    Analysed(1.0, Figures().sampleCells, Figures().filteredFragments)
  }

  lemma FirstTextFits(note: string)
    requires |note| <= MAX_NOTE
    ensures |WithNote(FirstText(), note)| <= MAX_EXPLANATION
  {
    hide Figures, Analysed, WithNote;
    FiguresOf();
    FirstNoteFits(1.0, Figures().sampleCells, Figures().filteredFragments, note);
  }

  ghost function DetectedGap(): GapRow {
    GapRow(GapData([3], KEY, Figures(), SeverityForRatio(Figures().gapRatio), SquareAt(0.0)), Detected, FirstText(), 1)
  }

  ghost function WithGap(): DB {
    WithRun(Processed, 4).(gaps := map[4 := DetectedGap()], next := 5)
  }

  /** The survey area moved a hundred metres away. */
  ghost function Moved(): DB {
    WithGap().(areas := map[1 := AreaRow("code", AREA.(boundary := SquareAt(100.0)), 2)])
  }

  lemma DetectionReads(hypot: Hypot, db: DB)
    requires 1 in db.areas && db.areas[1].fields.crs == "UTM5"
    requires db.plans == LOCKED.plans && db.runs == WithRun(Processed, 4).runs
    ensures Begin(db, DETECT) == DetectRead(1, db.areas[1], [3], "grid", 1.0)
    ensures Advance(hypot, db, DetectRead(1, db.areas[1], [3], "grid", 1.0), [3])
         == (db, DetectReady([3], [3], HOVER, KEY, db.areas[1].fields.boundary))
  {
    hide Begin, Advance, IsListing, ReadRuns;
    BeginsDetection(db);
    ListsRun(db);
    ReadStep(hypot, db, 1, [3], [3], "grid", 1.0);
    ReadsRun(db);
  }

  lemma ListsRun(db: DB)
    requires db.runs == WithRun(Processed, 4).runs
    ensures IsListing([3], [3], db.runs)
  {
  }

  lemma ReadsRun(db: DB)
    requires 1 in db.areas && db.areas[1].fields.crs == "UTM5"
    requires db.plans == LOCKED.plans && db.runs == WithRun(Processed, 4).runs
    requires IsListing([3], [3], db.runs)
    ensures ReadRuns(db, 1, db.areas[1], [3], [3], "grid", 1.0)
         == DetectReady([3], [3], HOVER, KEY, db.areas[1].fields.boundary)
  {
    hide ChecksumOf, IsListing;
    assert !Misfit(db, 1, [3][0]);
    assert Checksums(db.runs, [3]) == [ChecksumOf(DATA)];
    assert TracksOf(db.runs, [3]) == HOVER;
  }

  lemma BeginsDetection(db: DB)
    requires 1 in db.areas && db.areas[1].fields.crs == "UTM5"
    ensures Begin(db, DETECT) == DetectRead(1, db.areas[1], [3], "grid", 1.0)
  {
    MetricName();
    OneId();
    hide BeginReplay, ValidGeometry, GeometryFailure, ValidLines, ProjectedCRS, UniqueIds;
  }

  lemma OneId()
    ensures UniqueIds([3]) == [3]
  {
    assert [3][..0] == [];
  }

  lemma FiguresStored(hypot: Hypot)
    ensures Advance(hypot, WithRun(Processed, 4), DetectMissed([3], [3], HOVER, KEY, SquareAt(0.0)), [3])
         == (WithGap(), Finished(Done))
  {
    hide Assess, Figures, Vertices, Analysed, SquareAt, IsPolygon;
    FiguresOf();
    FirstTextFits("");
    assert |FirstText()| <= |WithNote(FirstText(), "")|;
    SquareIsPolygon(0.0);
    PolygonHasVertices(SquareAt(0.0));
    var db := WithRun(Processed, 4);
    assert InsertGap(db, DetectedGap()) == Some(WithGap());
    assert StoreGap(db, [3], HOVER, KEY, SquareAt(0.0)) == (WithGap(), Finished(Done));
  }

  lemma MissesGap(hypot: Hypot)
    ensures var db := WithRun(Processed, 4);
            Advance(hypot, db, DetectReady([3], [3], HOVER, KEY, SquareAt(0.0)), [3])
            == (db, DetectMissed([3], [3], HOVER, KEY, SquareAt(0.0)))
  {
    hide SquareAt;
  }

  lemma Detects(hypot: Hypot)
    ensures Alone(hypot, WithRun(Processed, 4), Begin(WithRun(Processed, 4), DETECT), [3], 3) == (WithGap(), Finished(Done))
  {
    hide Alone, Begin, Advance, SquareAt, WithGap;
    var db := WithRun(Processed, 4);
    DetectionReads(hypot, db);
    FiguresStored(hypot);
    MissesGap(hypot);
    var ready := DetectReady([3], [3], HOVER, KEY, SquareAt(0.0));
    AloneStep(hypot, db, Begin(db, DETECT), [3], 3);
    AloneStep(hypot, db, ready, [3], 2);
    AloneOnce(hypot, db, DetectMissed([3], [3], HOVER, KEY, SquareAt(0.0)), [3]);
  }

  lemma MovesArea(hypot: Hypot)
    ensures Alone(hypot, WithGap(), Begin(WithGap(), UpdateAreaRequest(1, 1, AREA.(boundary := SquareAt(100.0)))), [], 1)
         == (Moved(), Finished(Done))
  {
    AreaAccepted(100.0);
    hide Alone, BoundArea, ValidGeometry, SquareAt, DetectedGap;
    var fields := AREA.(boundary := SquareAt(100.0));
    var row := WithGap().areas[1];
    Again(1, row, AreaRow("code", fields, 2));
    assert Begin(WithGap(), UpdateAreaRequest(1, 1, fields)) == AreaRead(1, 1, row, fields);
    AloneOnce(hypot, WithGap(), AreaRead(1, 1, row, fields), []);
  }

  lemma HitsAgain(hypot: Hypot)
    ensures Alone(hypot, Moved(), Begin(Moved(), DETECT), [3], 2) == (Moved(), Finished(Existing(4)))
  {
    DetectionReads(hypot, Moved());
    hide Alone, Begin, SquareAt, Advance, DetectedGap;
    AloneStep(hypot, Moved(), Begin(Moved(), DETECT), [3], 2);
    var ready := DetectReady([3], [3], HOVER, KEY, SquareAt(100.0));
    AloneOnce(hypot, Moved(), ready, [3]);
    FindsGap(hypot, ready);
  }

  lemma FindsGap(hypot: Hypot, ready: Thread)
    requires ready.DetectReady? && ready.key == KEY
    ensures Advance(hypot, Moved(), ready, [3]) == (Moved(), Finished(Existing(4)))
  {
    hide SquareAt, Figures, FirstText;
    assert 4 in Moved().gaps && Moved().gaps[4].data.key == KEY;
  }

  lemma Detected1(hypot: Hypot) returns (events: seq<Event>)
    ensures Run(hypot, events).db == WithGap()
    ensures forall t :: t in Run(hypot, events).threads ==> t < 8
  {
    hide Run, Begin, Alone, Serve, WithGap;
    var survey := Surveyed(hypot);
    Detects(hypot);
    ServedNext(hypot, survey, 7, DETECT, [3], 3);
    events := survey + Serve(7, DETECT, [3], 3);
  }

  /** A run whose last request, a detection, answers a stored gap with full coverage, although a
      fresh calculation over the area as it stands finds nothing covered: the key leaves the
      boundary out, and the boundary has moved since. */
  lemma StaleHit(hypot: Hypot) returns (events: seq<Event>)
    ensures var s := Run(hypot, events);
            && 9 in s.threads && s.threads[9] == Finished(Existing(4))
            && 4 in s.db.gaps && s.db.gaps[4].data.result.coverageRatio == 1.0
            && 1 in s.db.areas && s.db.areas[1].fields.boundary == SquareAt(100.0)
    ensures Vertices(SquareAt(100.0)) != {} && Assess(SquareAt(100.0), HOVER, 1.0).Ok?
    ensures Assess(SquareAt(100.0), HOVER, 1.0).value.coverageRatio == 0.0
    ensures AllUsable(Run(hypot, events).db.runs, [3]) && TracksOf(Run(hypot, events).db.runs, [3]) == HOVER
  {
    hide Run, Begin, Alone, Serve, Assess, SquareAt, Vertices;
    var detected := Detected1(hypot);
    var update := UpdateAreaRequest(1, 1, AREA.(boundary := SquareAt(100.0)));
    MovesArea(hypot);
    ServedNext(hypot, detected, 8, update, [], 1);
    var moved := detected + Serve(8, update, [], 1);
    HitsAgain(hypot);
    ServedNext(hypot, moved, 9, DETECT, [3], 2);
    events := moved + Serve(9, DETECT, [3], 2);
    SquareRatio(0.0);
    SquareRatio(100.0);
  }

  // ----- reviews

  /** A run at whose end the last audit entry skips a row: its second row is two versions above its
      first, because another review came between the update and the read that follows it. */
  lemma AuditSkipsRow(hypot: Hypot) returns (events: seq<Event>)
    ensures var audits := Run(hypot, events).db.audits;
            |audits| > 0 && audits[|audits| - 1].after.version > audits[|audits| - 1].before.version + 1
  {
    hide Run, SystemOk, Begin, Alone, Exec, Serve, WithGap, ReadsLater, Open, Advance, ReviewedRow, DetectedGap;
    var detected := Detected1(hypot);
    Reachable(hypot, detected);
    var s := Run(hypot, detected);
    GapIsOpen();
    var row := s.db.gaps[4];
    assert row.version == 1 && ReviewedRow(row, NextState(row.state), SHORT_NOTE).version == 2 by { OneVersionUp(row); }
    ServeReview(hypot, s, 8, 4);
    var wrote := detected + Serve(8, NextReview(4, row), [], 1);
    SplitRun(hypot, detected, Serve(8, NextReview(4, row), [], 1));
    Reachable(hypot, wrote);
    var rest := OpenReadsLater(hypot, Run(hypot, wrote), 8);
    var waiting := wrote + rest;
    SplitRun(hypot, wrote, rest);
    events := waiting + [Step(8, [])] + [Step(8, [])];
    SkippedRow(hypot, Run(hypot, wrote), rest, 8);
    Appended(hypot, waiting, Step(8, []));
    Appended(hypot, waiting + [Step(8, [])], Step(8, []));
  }

  lemma OneVersionUp(row: GapRow)
    ensures ReviewedRow(row, NextState(row.state), SHORT_NOTE).version == row.version + 1
  {
  }

  /** The stored gap has room for two short notes. */
  lemma GapIsOpen()
    ensures 4 in WithGap().gaps && WithGap().gaps[4] == DetectedGap() && DetectedGap().version == 1
    ensures Open(DetectedGap()) && Open(ReviewedRow(DetectedGap(), NextState(DetectedGap().state), SHORT_NOTE))
  {
    hide SquareAt, Figures, FirstText;
    FirstTextFits(WithNote(SHORT_NOTE, SHORT_NOTE));
  }

  /** Reading after such events, and recording what was read. */
  lemma SkippedRow(hypot: Hypot, s: System, rest: seq<Event>, t: nat)
    requires SystemOk(hypot, s) && t in s.threads && s.threads[t].GapMoved? && ReadsLater(hypot, s, rest, t)
    requires s.threads[t].written.version == s.threads[t].gapBefore.version + 1
    ensures var later := Exec(hypot, s, rest);
            var audits := Apply(hypot, Apply(hypot, later, Step(t, [])), Step(t, [])).db.audits;
            |audits| > 0 && audits[|audits| - 1].after.version > audits[|audits| - 1].before.version + 1
  {
    hide SystemOk, Exec, Evolves, Advance;
    ExecOk(hypot, s, rest);
    var later := Exec(hypot, s, rest);
    var r := s.threads[t];
    MovedGapStays(hypot, later, t);
    RereadReads(hypot, later.db, r.id, r.gapBefore, r.written);
    RecordsRead(hypot, later.db, r.id, r.gapBefore, r.written, later.db.gaps[r.id]);
    LaterVersion(r.written, later.db.gaps[r.id]);
  }

  lemma LaterVersion(written: GapRow, now: GapRow)
    requires GapEvolves(written, now) && written != now
    ensures now.version > written.version
  {
  }

  lemma RecordsRead(hypot: Hypot, db: DB, id: nat, before: GapRow, written: GapRow, after: GapRow)
    ensures Advance(hypot, db, GapReread(id, before, written, after), [])
         == (db.(audits := db.audits + [AuditRow(id, before, after)]), Finished(Done))
  {
  }

  /** A note of the greatest accepted length. */
  function LongNote(): (note: string)
    ensures |note| == MAX_NOTE
  {
    seq(MAX_NOTE, _ => 'x')
  }

  /** A run at whose end a review of the current row, expecting its version, fails: two notes of the
      accepted length do not both fit the column. */
  lemma ReviewOutOfRoom(hypot: Hypot) returns (events: seq<Event>)
    ensures var s := Run(hypot, events);
            && 9 in s.threads && s.threads[9] == Finished(Failed(StorageFailed))
            && 4 in s.db.gaps && s.db.gaps[4].state == GapState.Reviewed && s.db.gaps[4].version == 2
  {
    hide Run, Begin, Alone, Serve, WithGap, Advance;
    var detected := Detected1(hypot);
    LongReview(hypot);
    ServedNext(hypot, detected, 8, ReviewRequest(4, 1, GapState.Reviewed, LongNote()), [], 1);
    var once := detected + Serve(8, ReviewRequest(4, 1, GapState.Reviewed, LongNote()), [], 1);
    SecondLongReview(hypot);
    ServedNext(hypot, once, 9, ReviewRequest(4, 2, Accepted, LongNote()), [], 1);
    events := once + Serve(9, ReviewRequest(4, 2, Accepted, LongNote()), [], 1);
  }

  ghost function Annotated(): DB {
    WithGap().(gaps := map[4 := ReviewedRow(DetectedGap(), GapState.Reviewed, LongNote())])
  }

  lemma LongReview(hypot: Hypot)
    ensures Alone(hypot, WithGap(), Begin(WithGap(), ReviewRequest(4, 1, GapState.Reviewed, LongNote())), [], 1)
         == (Annotated(), GapMoved(4, DetectedGap(), ReviewedRow(DetectedGap(), GapState.Reviewed, LongNote())))
  {
    hide SquareAt, Figures, FirstText, Alone, Advance, WithNote;
    FirstTextFits(LongNote());
    var gap := DetectedGap();
    BeginsNote(WithGap(), 1, gap, GapState.Reviewed);
    AloneOnce(hypot, WithGap(), GapRead(4, 1, gap, GapState.Reviewed, LongNote()), []);
    ReviewStep(hypot, WithGap(), 4, 1, gap, GapState.Reviewed, LongNote(), []);
    Again(4, gap, ReviewedRow(gap, GapState.Reviewed, LongNote()));
  }

  lemma BeginsNote(db: DB, version: nat, gap: GapRow, target: GapState)
    requires 4 in db.gaps && db.gaps[4] == gap && gap.state.CanTransition(target) && target != Detected && version > 0
    ensures Begin(db, ReviewRequest(4, version, target, LongNote())) == GapRead(4, version, gap, target, LongNote())
  {
    hide BeginReplay, ValidGeometry, GeometryFailure, ValidLines;
  }

  lemma SecondLongReview(hypot: Hypot)
    ensures Alone(hypot, Annotated(), Begin(Annotated(), ReviewRequest(4, 2, Accepted, LongNote())), [], 1)
         == (Annotated(), Finished(Failed(StorageFailed)))
  {
    hide SquareAt, FirstText, Alone, Advance, Figures;
    var gap := ReviewedRow(DetectedGap(), GapState.Reviewed, LongNote());
    BeginsNote(Annotated(), 2, gap, Accepted);
    AloneOnce(hypot, Annotated(), GapRead(4, 2, gap, Accepted, LongNote()), []);
    ReviewStep(hypot, Annotated(), 4, 2, gap, Accepted, LongNote(), []);
  }

  /** A note that fills the column after a long first review. */
  function FillingNote(first: string): string {
    var taken := |first| + MAX_NOTE + 12;
    seq(if taken <= MAX_EXPLANATION then MAX_EXPLANATION - taken else 0, _ => 'x')
  }

  ghost function FullGap(): GapRow {
    ReviewedRow(ReviewedRow(DetectedGap(), GapState.Reviewed, LongNote()), Accepted, FillingNote(FirstText()))
  }

  lemma FillingNoteFits()
    ensures MIN_NOTE <= |FillingNote(FirstText())| <= MAX_NOTE && |FullGap().explanation| == MAX_EXPLANATION
    ensures |WithNote(ReviewedRow(DetectedGap(), GapState.Reviewed, LongNote()).explanation, FillingNote(FirstText()))| <= MAX_EXPLANATION
  {
    hide SquareAt, Figures, WithNote;
    FirstTextShort();
    var once := WithNote(FirstText(), LongNote());
    NoteLength(FirstText(), LongNote());
    NoteLength(once, FillingNote(FirstText()));
  }

  lemma FirstTextShort()
    ensures |FirstText()| <= 100
  {
    hide Figures, Analysed;
    FiguresOf();
    AnalysedShort(1.0, Figures().sampleCells, Figures().filteredFragments);
  }

  /** A run after which a gap is neither closed nor can ever be: its explanation is full. */
  lemma GapStuck(hypot: Hypot) returns (events: seq<Event>)
    ensures var s := Run(hypot, events); 4 in s.db.gaps && s.db.gaps[4].state == Accepted
    ensures forall rest :: !Closes(hypot, Run(hypot, events), rest, 4)
  {
    hide Run, Begin, Alone, Serve, WithGap, Advance, Exec, SystemOk, WithNote, FullGap, DetectedGap, ReviewedRow, FillingNote;
    var detected := Detected1(hypot);
    LongReview(hypot);
    var first := ReviewRequest(4, 1, GapState.Reviewed, LongNote());
    ServedNext(hypot, detected, 8, first, [], 1);
    var once := detected + Serve(8, first, [], 1);
    Reachable(hypot, once);
    OnceAnnotated();
    FillingNoteFits();
    var request := ReviewRequest(4, 2, Accepted, FillingNote(FirstText()));
    ServeReviewTo(hypot, Run(hypot, once), 9, 4, Accepted, FillingNote(FirstText()));
    SplitRun(hypot, once, Serve(9, request, [], 1));
    events := once + Serve(9, request, [], 1);
    Reachable(hypot, events);
    FullIsAccepted();
    ClosableIff(hypot, Run(hypot, events), 4);
  }

  lemma OnceAnnotated()
    ensures 4 in Annotated().gaps && Annotated().gaps[4] == ReviewedRow(DetectedGap(), GapState.Reviewed, LongNote())
    ensures Annotated().gaps[4].version == 2 && Annotated().gaps[4].state == GapState.Reviewed
  {
    hide SquareAt, Figures, FirstText;
  }

  lemma FullIsAccepted()
    ensures FullGap() == ReviewedRow(ReviewedRow(DetectedGap(), GapState.Reviewed, LongNote()), Accepted, FillingNote(FirstText()))
    ensures FullGap().state == Accepted && !Closable(FullGap())
  {
    FillingNoteFits();
    hide SquareAt, Figures, FirstText, FillingNote, WithNote;
  }

  // ----- frozen rows overwritten

  const OTHER_PLAN := SAMPLE_PLAN.(spacing := 2.0)

  lemma StartsUpdates(hypot: Hypot)
    ensures Begin(WITH_PLAN, UpdatePlanRequest(2, 2, OTHER_PLAN)) == PlanRead(2, 2, WITH_PLAN.plans[2], OTHER_PLAN)
    ensures Begin(WITH_PLAN, UpdateAreaRequest(1, 2, AREA)) == AreaRead(1, 2, WITH_PLAN.areas[1], AREA)
  {
    AreaAccepted(0.0);
    hide BoundArea, ValidGeometry, SquareAt;
  }

  /** A run whose last event changes a locked plan: the update was accepted while the plan was a
      draft at version 1, but expected version 2, the version that locking gave it. */
  lemma LockedPlanOverwritten(hypot: Hypot) returns (events: seq<Event>)
    ensures |events| > 0
    ensures var a, b := Run(hypot, events[..|events| - 1]).db, Run(hypot, events).db;
            2 in a.plans && 2 in b.plans && a.plans[2].state == LockedPlan && a.plans[2] != b.plans[2]
  {
    hide Run, Exec, Apply, Begin, SystemOk, SquareAt;
    var base := Planned(hypot, SAMPLE_PLAN);
    StartsUpdates(hypot);
    var start := Start(2, UpdatePlanRequest(2, 2, OTHER_PLAN));
    Appended(hypot, base, start);
    Started(hypot, Run(hypot, base), 2, start.request);
    Reachable(hypot, base + [start]);
    LockedOverwriteIff(hypot, Run(hypot, base + [start]), 2);
    var rest :| OverwritesLocked(hypot, Run(hypot, base + [start]), rest, 2, 2);
    var most := base + [start] + rest;
    SplitRun(hypot, base + [start], rest);
    Appended(hypot, most, Step(2, []));
    events := most + [Step(2, [])];
    assert events[..|events| - 1] == most;
  }

  /** A run whose last event changes an archived area, in the same way. */
  lemma ArchivedAreaOverwritten(hypot: Hypot) returns (events: seq<Event>)
    ensures |events| > 0
    ensures var a, b := Run(hypot, events[..|events| - 1]).db, Run(hypot, events).db;
            && 1 in a.areas && 1 in b.areas && a.areas[1].fields.status == ArchivedArea
            && a.areas[1] != b.areas[1]
  {
    hide Run, Exec, Apply, Begin, SystemOk, SquareAt;
    var base := Planned(hypot, SAMPLE_PLAN);
    StartsUpdates(hypot);
    var start := Start(2, UpdateAreaRequest(1, 2, AREA));
    Appended(hypot, base, start);
    Started(hypot, Run(hypot, base), 2, start.request);
    Reachable(hypot, base + [start]);
    ArchivedOverwriteIff(hypot, Run(hypot, base + [start]), 2);
    var rest :| OverwritesArchived(hypot, Run(hypot, base + [start]), rest, 2, 1);
    var most := base + [start] + rest;
    SplitRun(hypot, base + [start], rest);
    Appended(hypot, most, Step(2, []));
    events := most + [Step(2, [])];
    assert events[..|events| - 1] == most;
  }
}
