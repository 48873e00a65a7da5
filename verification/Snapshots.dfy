/** Stored analyses agree with recomputation, and the rows they rest on stay usable. */
module Snapshots {
  import opened Euclid
  import opened Options
  import opened Rings
  import opened Coverage
  import opened CoverageLaws
  import opened BoundaryLaws
  import opened States
  import opened Replay
  import opened ReplayLaws
  import opened Overlap
  import opened Records
  import opened Services
  import opened Evolution
  import opened Invariant
  import opened Preservation
  import opened Text

  // ----- runs

  /** A run's version fits its state, and a run with invalid navigation is only ever imported or
      rejected, in every reachable state. */
  lemma RunVersionByState(hypot: Hypot, events: seq<Event>, id: nat)
    requires id in Run(hypot, events).db.runs
    ensures RunVersion(Run(hypot, events).db.runs[id])
    ensures Run(hypot, events).db.runs[id].data.navigation == Invalid ==>
              Run(hypot, events).db.runs[id].state == Imported || Run(hypot, events).db.runs[id].state == Rejected
  {
    Reachable(hypot, events);
    hide Run, RunVersion;
    assert RunOk(Run(hypot, events).db, Run(hypot, events).db.runs[id]);
  }

  /** Importing a stored checksum again answers the stored run and stores nothing. */
  lemma RepeatedImportFound(hypot: Hypot, events: seq<Event>, t: nat, order: seq<nat>, id: nat)
    requires t in Run(hypot, events).threads && Run(hypot, events).threads[t].ImportRead?
    requires id in Run(hypot, events).db.runs
    requires ChecksumOf(Run(hypot, events).db.runs[id].data) == ChecksumOf(Run(hypot, events).threads[t].data)
    ensures var s := Run(hypot, events); Advance(hypot, s.db, s.threads[t], order) == (s.db, Finished(Existing(id)))
  {
    Reachable(hypot, events);
    hide Run, DbOk, ThreadOk;
    UniqueChecksums(hypot, Run(hypot, events));
  }

  /** What such a parser reads in a track file. */
  type Parser = string -> (seq<Line>, Declared)

  ghost predicate ParsedBy(parse: Parser, data: RunData) {
    (data.track, data.declared) == parse(data.source)
  }

  lemma SameThousandths(x: real, y: real)
    requires RoundHalfEven(x * 1000.0) == RoundHalfEven(y * 1000.0)
    ensures -0.001 <= x - y <= 0.001
  {
    RoundsNear(x * 1000.0);
    RoundsNear(y * 1000.0);
  }

  /** Two imports with one checksum are of the same track, plan and times, with swaths a millimetre
      apart at most. They are the same import exactly when code, navigation quality and swath agree
      too, which the checksum leaves out or rounds; replays of them start from the same accuracy
      exactly when the navigation quality agrees. */
  lemma SameChecksumIff(parse: Parser, stored: RunData, sent: RunData)
    requires ParsedBy(parse, stored) && ParsedBy(parse, sent) && ChecksumOf(stored) == ChecksumOf(sent)
    ensures stored.track == sent.track && stored.plan == sent.plan
    ensures stored.startedAt == sent.startedAt && stored.endedAt == sent.endedAt
    ensures -0.001 <= stored.swath - sent.swath <= 0.001
    ensures stored == sent <==>
              stored.code == sent.code && stored.navigation == sent.navigation && stored.swath == sent.swath
    ensures NavBaseAccuracy(stored.navigation) == NavBaseAccuracy(sent.navigation) <==> stored.navigation == sent.navigation
  {
    SameThousandths(stored.swath, sent.swath);
  }

  /** Over any interleaving, an import answered with a stored run is answered with the data that was
      sent exactly when code, navigation quality and swath agree. */
  lemma ImportAnsweredIff(hypot: Hypot, events: seq<Event>, t: nat, order: seq<nat>, id: nat, parse: Parser)
    requires t in Run(hypot, events).threads && Run(hypot, events).threads[t].ImportRead?
    requires ParsedBy(parse, Run(hypot, events).threads[t].data)
    requires forall r :: r in Run(hypot, events).db.runs ==> ParsedBy(parse, Run(hypot, events).db.runs[r].data)
    requires Advance(hypot, Run(hypot, events).db, Run(hypot, events).threads[t], order).1 == Finished(Existing(id))
    ensures var s := Run(hypot, events);
            var sent := s.threads[t].data;
            && id in s.db.runs
            && var stored := s.db.runs[id].data;
               && ChecksumOf(stored) == ChecksumOf(sent) && -0.001 <= stored.swath - sent.swath <= 0.001
               && (stored == sent <==>
                     stored.code == sent.code && stored.navigation == sent.navigation && stored.swath == sent.swath)
  {
    hide Run, ChecksumOf, ParsedBy;
    var s := Run(hypot, events);
    SameChecksumIff(parse, s.db.runs[id].data, s.threads[t].data);
  }

  lemma UniqueChecksums(hypot: Hypot, s: System)
    requires SystemOk(hypot, s)
    ensures ChecksumsUnique(s.db)
  {
    hide ThreadOk, GapsOk, ReplaysOk, RunsOk;
  }

  // ----- coverage snapshots

  lemma StoredGap(hypot: Hypot, s: System, id: nat)
    requires SystemOk(hypot, s) && id in s.db.gaps
    ensures GapOk(s.db, s.db.gaps[id]) && ChecksumsUnique(s.db) && GapKeysUnique(s.db)
  {
    hide GapOk, ThreadOk, ReplaysOk;
  }

  /** The source runs of a stored gap are processed or superseded at every later moment, and still
      carry the tracks and checksums that were analysed. */
  lemma SourcesStayUsable(hypot: Hypot, events: seq<Event>, i: nat, j: nat, id: nat)
    requires i <= j <= |events| && id in Run(hypot, events[..i]).db.gaps
    ensures var a, b := Run(hypot, events[..i]).db, Run(hypot, events[..j]).db;
            var ids := a.gaps[id].data.sourceRuns;
            && AllUsable(a.runs, ids) && AllUsable(b.runs, ids)
            && TracksOf(b.runs, ids) == TracksOf(a.runs, ids)
            && Checksums(b.runs, ids) == Checksums(a.runs, ids)
  {
    Reachable(hypot, events[..i]);
    RunEvolution(hypot, events, i, j);
    hide Run, SnapshotOk, GapVersion, SystemOk;
    StoredGap(hypot, Run(hypot, events[..i]), id);
    RunsStay(Run(hypot, events[..i]).db, Run(hypot, events[..j]).db, Run(hypot, events[..i]).db.gaps[id].data.sourceRuns);
  }

  lemma BoundaryUsable(boundary: Polygon)
    requires ValidBoundary(boundary)
    ensures |boundary| > 0 && Vertices(boundary) != {}
  {
    assert boundary[0][0] in Vertices(boundary);
  }

  /** What a stored gap's figures rest on. */
  lemma StoredFigures(runs: map<nat, RunRow>, data: GapData)
    requires AllUsable(runs, data.sourceRuns) && SnapshotOk(runs, data)
    ensures data.sourceRuns != [] && Analysable(data.analysed, data.key.resolution)
  {
    var tracks := TracksOf(runs, data.sourceRuns);
    assert tracks != [];
    Succeeds(data.analysed, tracks, data.key.resolution);
  }

  /** A detection that finds its key stored would compute the stored figures itself against any
      boundary that gives the same figures as the one analysed, with its runs in any order. */
  lemma HitAgrees(db: DB, stored: GapRow, ids: seq<nat>, order: seq<nat>, tracks: seq<Track>, key: CoverageKey,
                  boundary: Polygon, now: Polygon, listed: seq<Track>)
    requires ChecksumsUnique(db) && GapOk(db, stored) && DetectOk(db, ids, order, tracks, key, boundary)
    requires stored.data.key == key && multiset(listed) == multiset(tracks)
    requires |now| > 0 && Vertices(now) != {}
    requires SameFigures(stored.data.analysed, now, key.resolution)
    ensures Assess(now, listed, key.resolution) == Ok(stored.data.result)
    ensures stored.data.severity == SeverityForRatio(stored.data.result.gapRatio)
  {
    hide Assess, TracksOf, Checksums, GapVersion, RunOk, ValidBoundary, ChecksumsUnique;
    var sources, analysed := stored.data.sourceRuns, stored.data.analysed;
    StoredFigures(db.runs, stored.data);
    ChecksumsDetermineTracks(db, sources, order);
    TracksPermuted(analysed, TracksOf(db.runs, sources), tracks, key.resolution);
    TracksPermuted(analysed, tracks, listed, key.resolution);
    SameLength(db.runs, sources, tracks, listed);
  }

  lemma SameLength(runs: map<nat, RunRow>, sources: seq<nat>, tracks: seq<Track>, listed: seq<Track>)
    requires AllUsable(runs, sources) && sources != []
    requires multiset(TracksOf(runs, sources)) == multiset(tracks) && multiset(listed) == multiset(tracks)
    ensures listed != []
  {
    assert |multiset(listed)| == |multiset(TracksOf(runs, sources))| == |sources|;
  }

  /** A boundary that an analysis can be asked about. */
  ghost predicate Measurable(b: Polygon) {
    |b| > 0 && Vertices(b) != {}
  }

  /** The figures of a gap are current when every analysis of the area as it stands, of whatever
      tracks, answers the same figures as against the boundary that was analysed. */
  ghost predicate Current(db: DB, gap: GapRow) {
    var data := gap.data;
    && data.key.area in db.areas
    && var now := db.areas[data.key.area].fields.boundary;
       Measurable(data.analysed) && Measurable(now) && SameFigures(data.analysed, now, data.key.resolution)
  }

  /** What the figures of a gap rest on, in a database the invariants allow. */
  lemma GapRests(hypot: Hypot, db: DB, g: nat)
    requires DbOk(hypot, db) && g in db.gaps
    ensures var data := db.gaps[g].data;
            && AllUsable(db.runs, data.sourceRuns) && SnapshotOk(db.runs, data)
            && data.sourceRuns != [] && Analysable(data.analysed, data.key.resolution) && Measurable(data.analysed)
  {
    hide KeysOk, AreasOk, PlansOk, RunsOk, ReplaysOk, Assess, Analysable, Vertices, GapVersion, TextOk;
    assert GapOk(db, db.gaps[g]);
    var data := db.gaps[g].data;
    StoredFigures(db.runs, data);
    Known(data.analysed, data.key.resolution);
  }

  /** The figures of a stored gap are current exactly when the area's boundary can be analysed at the
      gap's resolution and has the area, the middle and the sampled centres of the one analysed. */
  lemma CurrentIff(hypot: Hypot, db: DB, g: nat)
    requires DbOk(hypot, db) && g in db.gaps && db.gaps[g].data.key.area in db.areas
    ensures var data := db.gaps[g].data;
            var now := db.areas[data.key.area].fields.boundary;
            && Analysable(data.analysed, data.key.resolution)
            && (Current(db, db.gaps[g]) <==>
                  Analysable(now, data.key.resolution) && SameGrid(data.analysed, now, data.key.resolution))
  {
    hide DbOk, Analysable, SameGrid, SameFigures, ValidGeometry, Vertices, SnapshotOk;
    GapRests(hypot, db, g);
    var data := db.gaps[g].data;
    AreaFacts(hypot, db, data.key.area);
    BoundaryUsable(db.areas[data.key.area].fields.boundary);
    SameFiguresIff(data.analysed, db.areas[data.key.area].fields.boundary, data.key.resolution);
  }

  /** Current figures are what a fresh analysis of the source runs answers. */
  lemma CurrentFigures(hypot: Hypot, db: DB, g: nat)
    requires DbOk(hypot, db) && g in db.gaps && Current(db, db.gaps[g])
    ensures var data := db.gaps[g].data;
            && AllUsable(db.runs, data.sourceRuns)
            && Assess(db.areas[data.key.area].fields.boundary, TracksOf(db.runs, data.sourceRuns), data.key.resolution)
               == Ok(data.result)
  {
    hide DbOk, Analysable, Assess, ValidBoundary, Vertices;
    GapRests(hypot, db, g);
    var data := db.gaps[g].data;
    assert TracksOf(db.runs, data.sourceRuns) != [];
  }

  /** Exactly which updates of an area keep the figures of its gaps. For every stored gap of the area
      whose figures are current: after the update every analysis, of whatever tracks, still answers the
      same figures if and only if the new boundary can be analysed at the gap's resolution and has the
      same area, middle and sampled centres as the old. */
  lemma UpdateKeepsCurrentIff(hypot: Hypot, a: DB, id: nat, expected: nat, fields: AreaFields, g: nat)
    requires DbOk(hypot, a) && BoundArea(fields) && ValidGeometry(fields)
    requires UpdateArea(a, id, expected, fields).Some?
    requires g in a.gaps && a.gaps[g].data.key.area == id && Current(a, a.gaps[g])
    ensures var b := UpdateArea(a, id, expected, fields).value;
            var res := a.gaps[g].data.key.resolution;
            && Analysable(a.areas[id].fields.boundary, res)
            && (Current(b, a.gaps[g]) <==>
                  Analysable(fields.boundary, res) && SameGrid(a.areas[id].fields.boundary, fields.boundary, res))
  {
    hide DbOk, BoundArea, ValidGeometry, Analysable, SameFigures, Centres, Bounds, Area, Evolves, Vertices;
    UpdateAreaKeeps(hypot, a, id, expected, fields);
    CurrentIff(hypot, a, g);
    CurrentIff(hypot, UpdateArea(a, id, expected, fields).value, g);
  }

  /** At some moment of the run, this was the boundary of the area. */
  ghost predicate HadBoundary(hypot: Hypot, events: seq<Event>, area: nat, boundary: Polygon) {
    exists i: nat :: BoundaryAt(hypot, events, i, area, boundary)
  }

  ghost predicate BoundaryAt(hypot: Hypot, events: seq<Event>, i: nat, area: nat, boundary: Polygon) {
    && i <= |events| && area in Run(hypot, events[..i]).db.areas
    && Run(hypot, events[..i]).db.areas[area].fields.boundary == boundary
  }

  ghost predicate BoundaryTraced(hypot: Hypot, events: seq<Event>, thread: Thread) {
    match thread
    case DetectRead(area, row, _, _, _) => HadBoundary(hypot, events, area, row.fields.boundary)
    case DetectReady(_, _, _, key, boundary) => HadBoundary(hypot, events, key.area, boundary)
    case DetectMissed(_, _, _, key, boundary) => HadBoundary(hypot, events, key.area, boundary)
    case _ => true
  }

  ghost predicate GapTraced(hypot: Hypot, events: seq<Event>, gap: GapRow) {
    HadBoundary(hypot, events, gap.data.key.area, gap.data.analysed)
  }

  ghost predicate BoundariesTraced(hypot: Hypot, events: seq<Event>) {
    && (forall t :: t in Run(hypot, events).threads ==> BoundaryTraced(hypot, events, Run(hypot, events).threads[t]))
    && (forall id :: id in Run(hypot, events).db.gaps ==> GapTraced(hypot, events, Run(hypot, events).db.gaps[id]))
  }

  lemma HadLater(hypot: Hypot, events: seq<Event>, e: Event, area: nat, boundary: Polygon)
    requires HadBoundary(hypot, events, area, boundary)
    ensures HadBoundary(hypot, events + [e], area, boundary)
  {
    hide Run;
    var i: nat :| BoundaryAt(hypot, events, i, area, boundary);
    assert (events + [e])[..i] == events[..i];
    assert BoundaryAt(hypot, events + [e], i, area, boundary);
  }

  lemma HasBoundary(hypot: Hypot, events: seq<Event>, area: nat)
    requires area in Run(hypot, events).db.areas
    ensures HadBoundary(hypot, events, area, Run(hypot, events).db.areas[area].fields.boundary)
  {
    hide Run;
    assert events[..|events|] == events;
    assert BoundaryAt(hypot, events, |events|, area, Run(hypot, events).db.areas[area].fields.boundary);
  }

  lemma TracedThreadLater(hypot: Hypot, events: seq<Event>, e: Event, thread: Thread)
    requires BoundaryTraced(hypot, events, thread)
    ensures BoundaryTraced(hypot, events + [e], thread)
  {
    hide HadBoundary;
    match thread
    case DetectRead(area, row, _, _, _) => HadLater(hypot, events, e, area, row.fields.boundary);
    case DetectReady(_, _, _, key, boundary) => HadLater(hypot, events, e, key.area, boundary);
    case DetectMissed(_, _, _, key, boundary) => HadLater(hypot, events, e, key.area, boundary);
    case _ =>
  }

  lemma BeginTraced(hypot: Hypot, events: seq<Event>, request: Request)
    ensures BoundaryTraced(hypot, events, Begin(Run(hypot, events).db, request))
  {
    hide Run, HadBoundary, ValidBoundary, Contains;
    match request
    case DetectRequest(_, area, _, _, _) => if area in Run(hypot, events).db.areas { HasBoundary(hypot, events, area); }
    case _ =>
  }

  lemma ReadRunsTraced(hypot: Hypot, events: seq<Event>, db: DB, area: nat, row: AreaRow, ids: seq<nat>,
                       order: seq<nat>, algorithm: string, requested: real)
    requires IsListing(order, ids, db.runs) && HadBoundary(hypot, events, area, row.fields.boundary)
    ensures BoundaryTraced(hypot, events, ReadRuns(db, area, row, ids, order, algorithm, requested))
  {
    hide HadBoundary, TracksOf, Checksums;
  }

  lemma AdvanceTraced(hypot: Hypot, events: seq<Event>, db: DB, thread: Thread, order: seq<nat>)
    requires BoundaryTraced(hypot, events, thread)
    ensures BoundaryTraced(hypot, events, Advance(hypot, db, thread, order).1)
  {
    hide HadBoundary, ReadRuns, IsListing, Assess, ReplayOf;
    match thread
    case DetectRead(area, row, ids, algorithm, requested) =>
      if IsListing(order, ids, db.runs) { ReadRunsTraced(hypot, events, db, area, row, ids, order, algorithm, requested); }
    case _ =>
  }

  lemma GapDataKept(hypot: Hypot, db: DB, thread: Thread, order: seq<nat>, id: nat)
    requires KeysOk(db) && id in Advance(hypot, db, thread, order).0.gaps
    ensures var gap := Advance(hypot, db, thread, order).0.gaps[id];
            || (id in db.gaps && gap.data == db.gaps[id].data)
            || (thread.DetectMissed? && gap.data.key == thread.key && gap.data.analysed == thread.boundary)
  {
    hide ReadRuns, ReplayOf, Assess, Text.Analysed;
  }

  lemma {:induction false} RunBoundaries(hypot: Hypot, events: seq<Event>)
    ensures BoundariesTraced(hypot, events)
  {
    hide BoundaryTraced, GapTraced, Apply;
    if |events| > 0 {
      var n := |events| - 1;
      var first, e := events[..n], events[n];
      RunBoundaries(hypot, first);
      assert events == first + [e];
      assert Run(hypot, events) == Apply(hypot, Run(hypot, first), e);
      forall t | t in Run(hypot, events).threads ensures BoundaryTraced(hypot, events, Run(hypot, events).threads[t]) {
        ThreadBoundary(hypot, first, e, t);
      }
      forall id | id in Run(hypot, events).db.gaps ensures GapTraced(hypot, events, Run(hypot, events).db.gaps[id]) {
        GapBoundary(hypot, first, e, id);
      }
    }
  }

  lemma ThreadBoundary(hypot: Hypot, events: seq<Event>, e: Event, t: nat)
    requires BoundariesTraced(hypot, events) && t in Apply(hypot, Run(hypot, events), e).threads
    ensures BoundaryTraced(hypot, events + [e], Apply(hypot, Run(hypot, events), e).threads[t])
  {
    hide Run, Begin, Advance, BoundaryTraced;
    var s := Run(hypot, events);
    if e.Start? {
      BeginTraced(hypot, events, e.request);
    } else if e.thread in s.threads {
      AdvanceTraced(hypot, events, s.db, s.threads[e.thread], e.order);
    }
    TracedThreadLater(hypot, events, e, Apply(hypot, s, e).threads[t]);
  }

  lemma KeysReachable(hypot: Hypot, events: seq<Event>)
    ensures KeysOk(Run(hypot, events).db)
  {
    Reachable(hypot, events);
    hide Run;
  }

  lemma GapBoundary(hypot: Hypot, events: seq<Event>, e: Event, id: nat)
    requires BoundariesTraced(hypot, events) && id in Apply(hypot, Run(hypot, events), e).db.gaps
    ensures GapTraced(hypot, events + [e], Apply(hypot, Run(hypot, events), e).db.gaps[id])
  {
    KeysReachable(hypot, events);
    hide Run, Begin, Advance, HadBoundary;
    var s := Run(hypot, events);
    var gap := Apply(hypot, s, e).db.gaps[id];
    if e.Step? && e.thread in s.threads {
      GapDataKept(hypot, s.db, s.threads[e.thread], e.order, id);
      if id in s.db.gaps && gap.data == s.db.gaps[id].data {
        assert GapTraced(hypot, events, s.db.gaps[id]);
      } else {
        assert BoundaryTraced(hypot, events, s.threads[e.thread]);
      }
    } else {
      assert GapTraced(hypot, events, s.db.gaps[id]);
    }
    HadLater(hypot, events, e, gap.data.key.area, gap.data.analysed);
  }

  lemma AreaStays(hypot: Hypot, events: seq<Event>, area: nat, boundary: Polygon)
    requires HadBoundary(hypot, events, area, boundary)
    ensures area in Run(hypot, events).db.areas
    ensures ValidBoundary(Run(hypot, events).db.areas[area].fields.boundary)
  {
    var i: nat :| BoundaryAt(hypot, events, i, area, boundary);
    RunEvolution(hypot, events, i, |events|);
    assert events[..|events|] == events;
    Reachable(hypot, events);
    hide Run, DbOk, ValidBoundary;
    AreaFacts(hypot, Run(hypot, events).db, area);
  }

  /** The boundary a stored gap was analysed against was the boundary of its area at some moment. */
  lemma AnalysedWasCurrent(hypot: Hypot, events: seq<Event>, id: nat)
    requires id in Run(hypot, events).db.gaps
    ensures var gap := Run(hypot, events).db.gaps[id]; HadBoundary(hypot, events, gap.data.key.area, gap.data.analysed)
  {
    RunBoundaries(hypot, events);
    hide Run;
    assert GapTraced(hypot, events, Run(hypot, events).db.gaps[id]);
  }

  lemma DetectThread(hypot: Hypot, s: System, t: nat)
    requires SystemOk(hypot, s) && t in s.threads && s.threads[t].DetectReady?
    ensures var r := s.threads[t]; DetectOk(s.db, r.ids, r.order, r.tracks, r.key, r.boundary)
  {
    hide SystemOk, GapEvolves, AreaEvolves, PlanEvolves, RunEvolves, DetectOk, ReplayThreadOk;
    ThreadHolds(hypot, s, t);
  }

  lemma HitAnswers(hypot: Hypot, db: DB, thread: Thread, order: seq<nat>, id: nat)
    requires GapKeysUnique(db) && thread.DetectReady? && id in db.gaps && db.gaps[id].data.key == thread.key
    ensures Advance(hypot, db, thread, order) == (db, Finished(Existing(id)))
  {
  }

  /** The boundary of the area has been this one at every moment of the run. */
  ghost predicate NeverMoved(hypot: Hypot, events: seq<Event>, area: nat, boundary: Polygon) {
    forall b :: HadBoundary(hypot, events, area, b) ==> b == boundary
  }

  /** Over any interleaving: when a detection finds its key stored it answers with that very gap,
      and if the figures of that gap are current they are what a fresh calculation over the area as it
      now stands answers, with the runs in any order. They are current whenever the boundary never
      moved. */
  lemma CacheAgrees(hypot: Hypot, events: seq<Event>, t: nat, order: seq<nat>, id: nat, listed: seq<Track>)
    requires t in Run(hypot, events).threads && Run(hypot, events).threads[t].DetectReady?
    requires id in Run(hypot, events).db.gaps && Run(hypot, events).db.gaps[id].data.key == Run(hypot, events).threads[t].key
    requires multiset(listed) == multiset(Run(hypot, events).threads[t].tracks)
    ensures var s := Run(hypot, events);
            var key, gap := s.threads[t].key, s.db.gaps[id];
            && Advance(hypot, s.db, s.threads[t], order) == (s.db, Finished(Existing(id)))
            && key.area in s.db.areas
            && var now := s.db.areas[key.area].fields.boundary;
               && |now| > 0 && Vertices(now) != {}
               && (Current(s.db, gap) ==> Assess(now, listed, key.resolution) == Ok(gap.data.result))
               && (NeverMoved(hypot, events, key.area, now) ==> Current(s.db, gap))
  {
    hide Run, Advance, Assess, SystemOk, DetectOk, GapOk, HadBoundary, GapKeysUnique, ChecksumsUnique, SameFigures,
         ValidBoundary, Vertices;
    var s := Run(hypot, events);
    var r, gap := s.threads[t], s.db.gaps[id];
    Reachable(hypot, events);
    StoredGap(hypot, s, id);
    DetectThread(hypot, s, t);
    HitAnswers(hypot, s.db, r, order, id);
    AnalysedWasCurrent(hypot, events, id);
    AreaStays(hypot, events, r.key.area, gap.data.analysed);
    var now := s.db.areas[r.key.area].fields.boundary;
    BoundaryUsable(now);
    SameAsItself(now, r.key.resolution);
    if Current(s.db, gap) {
      HitAgrees(s.db, gap, r.ids, r.order, r.tracks, r.key, r.boundary, now, listed);
    }
  }

  lemma SameAsItself(b: Polygon, res: real)
    requires |b| > 0 && Vertices(b) != {}
    ensures SameFigures(b, b, res)
  {
    hide Assess, Vertices;
  }

  // ----- replay snapshots

  lemma StoredReplay(hypot: Hypot, s: System, id: nat)
    requires SystemOk(hypot, s) && id in s.db.replays
    ensures ReplayOk(hypot, s.db, s.db.replays[id]) && ChecksumsUnique(s.db)
    ensures RunOk(s.db, s.db.runs[s.db.replays[id].run])
  {
    hide ReplayOf, ThreadOk, GapsOk;
    assert ReplayOk(hypot, s.db, s.db.replays[id]);
  }

  /** A stored replay is what a replay of its run answers in every reachable state; the run is
      processed or superseded, and its base accuracy is never that of invalid navigation. */
  lemma ReplayAgrees(hypot: Hypot, events: seq<Event>, id: nat)
    requires id in Run(hypot, events).db.replays
    ensures var db := Run(hypot, events).db;
            var replay := db.replays[id];
            && replay.run in db.runs && Usable(db.runs[replay.run].state)
            && ReplayOf(hypot, db.runs[replay.run], replay.key.params) == Ok(replay.snapshot)
            && (NavBaseAccuracy(db.runs[replay.run].data.navigation) == 1.5
                || NavBaseAccuracy(db.runs[replay.run].data.navigation) == 6.0)
  {
    Reachable(hypot, events);
    hide Run, ReplayOf, SystemOk, RunVersion;
    StoredReplay(hypot, Run(hypot, events), id);
  }

  /** The key of a replay determines its frames and its summary; the declared number of samples in
      the key does not matter. */
  lemma ReplayKeyDecides(hypot: Hypot, events: seq<Event>, i: nat, j: nat)
    requires i in Run(hypot, events).db.replays && j in Run(hypot, events).db.replays
    requires var db := Run(hypot, events).db;
             db.replays[i].key.checksum == db.replays[j].key.checksum && db.replays[i].key.params == db.replays[j].key.params
    ensures Run(hypot, events).db.replays[i].snapshot == Run(hypot, events).db.replays[j].snapshot
  {
    Reachable(hypot, events);
    hide Run, ReplayOf, SystemOk, RunVersion;
    StoredReplay(hypot, Run(hypot, events), i);
    StoredReplay(hypot, Run(hypot, events), j);
  }

  lemma ReplayThread(hypot: Hypot, s: System, t: nat)
    requires SystemOk(hypot, s) && t in s.threads && s.threads[t].ReplayRead?
    ensures var r := s.threads[t]; ReplayThreadOk(s.db, r.run, r.runBefore, r.replayKey)
  {
    hide SystemOk, GapEvolves, AreaEvolves, PlanEvolves, RunEvolves, DetectOk, ReplayThreadOk;
    ThreadHolds(hypot, s, t);
  }

  /** A replay refused as a duplicate would have computed the stored snapshot, frame for frame. */
  lemma DuplicateReplayAgrees(hypot: Hypot, events: seq<Event>, t: nat, order: seq<nat>, id: nat)
    requires t in Run(hypot, events).threads && Run(hypot, events).threads[t].ReplayRead?
    requires id in Run(hypot, events).db.replays
    requires Run(hypot, events).db.replays[id].key == Run(hypot, events).threads[t].replayKey
    ensures var s := Run(hypot, events);
            var r := s.threads[t];
            && Advance(hypot, s.db, r, order) == (s.db, Finished(Failed(ReplayDuplicate)))
            && ReplayOf(hypot, r.runBefore, r.replayKey.params) == Ok(s.db.replays[id].snapshot)
  {
    Reachable(hypot, events);
    hide Run, Replayed, SystemOk, RunVersion;
    StoredReplay(hypot, Run(hypot, events), id);
    ReplayThread(hypot, Run(hypot, events), t);
  }

  /** Every stored replay, over any interleaving, meets the geometric guarantees: at most half of the
      spacings plus the line jumps are dropouts, and missing samples never outweigh the distance. */
  lemma StoredReplaysMeetLimits(hypot: Hypot, events: seq<Event>, id: nat)
    requires IsEuclidean(hypot) && id in Run(hypot, events).db.replays
    ensures var db := Run(hypot, events).db;
            var snapshot := db.replays[id].snapshot;
            db.replays[id].run in db.runs &&
            var samples := Flatten(db.runs[db.replays[id].run].data.track);
            && snapshot.summary.dropoutEvents
               <= |Spacings(hypot, samples, |samples|)| / 2 + NonEmptyLines(db.runs[db.replays[id].run].data.track) - 1
            && |snapshot.frames| > 0
            && (MedianGap(hypot, samples) > 0.0 ==>
                  Times(snapshot.summary.droppedPoints as real, MedianGap(hypot, samples))
                    <= snapshot.frames[|snapshot.frames| - 1].cumulative)
  {
    Reachable(hypot, events);
    hide Run, Replayed, SystemOk, RunVersion, MedianGap, Spacings, Times, Flatten;
    StoredReplay(hypot, Run(hypot, events), id);
    var db := Run(hypot, events).db;
    var replay := db.replays[id];
    var data := db.runs[replay.run].data;
    LimitsOf(hypot, data, replay.key.params, replay.snapshot);
  }

  lemma LimitsOf(hypot: Hypot, data: RunData, params: Params, r: Snapshot)
    requires IsEuclidean(hypot) && params.dropoutFactor >= 1.5
    requires Replayed(hypot, data.track, data.swath, NavBaseAccuracy(data.navigation), data.startedAt, data.endedAt, params) == Ok(r)
    ensures var samples := Flatten(data.track);
            && r.summary.dropoutEvents <= |Spacings(hypot, samples, |samples|)| / 2 + NonEmptyLines(data.track) - 1
            && |r.frames| > 0
            && (MedianGap(hypot, samples) > 0.0 ==>
                  Times(r.summary.droppedPoints as real, MedianGap(hypot, samples)) <= r.frames[|r.frames| - 1].cumulative)
  {
    hide Replayed, MedianGap, Spacings, Flatten;
    var base := NavBaseAccuracy(data.navigation);
    DropoutLimit(hypot, data.track, data.swath, base, data.startedAt, data.endedAt, params, r);
    SomeFrames(hypot, data, params, r);
    if MedianGap(hypot, Flatten(data.track)) > 0.0 {
      DroppedWithinTrack(hypot, data.track, data.swath, base, data.startedAt, data.endedAt, params, r);
    }
  }

  lemma SomeFrames(hypot: Hypot, data: RunData, params: Params, r: Snapshot)
    requires Replayed(hypot, data.track, data.swath, NavBaseAccuracy(data.navigation), data.startedAt, data.endedAt, params) == Ok(r)
    ensures |r.frames| > 0
  {
    hide Touched, CellsRepeated, FlagsAt, AccuracyAt, TooManyCells, MedianGap, Dropouts;
  }
}
