/** From the stored rows to the figures: which runs a detection counts at a point, what the figures
    of a stored gap say about its source runs, and when the analysis of a stored area fails. */
module Detections {
  import opened Euclid
  import opened Options
  import opened Rings
  import opened Coverage
  import opened CoverageMeaning
  import opened States
  import opened Records
  import opened Services
  import opened Evolution
  import opened Invariant
  import opened Preservation

  // ----- the runs that pass a point

  /** Some segment of some line of the run passes within half its swath of p. */
  ghost predicate RunNear(run: RunRow, p: Point) {
    exists l, k :: 0 <= l < |run.data.track| && 1 <= k < |run.data.track[l]|
                   && NearSegment(p, run.data.track[l][k - 1], run.data.track[l][k], run.data.swath / 2.0)
  }

  /** The track that is analysed is the whole of what the run has flown. */
  lemma TrackIsRun(run: RunRow, p: Point)
    ensures Covers(TrackOf(run), p) <==> RunNear(run, p)
  {
    hide NearSegment;
    var track, r := run.data.track, run.data.swath / 2.0;
    if Covers(TrackOf(run), p) {
      var l :| 0 <= l < |track| && LineNear(p, track[l], r);
      var k :| 1 <= k < |track[l]| && NearSegment(p, track[l][k - 1], track[l][k], r);
    }
    if RunNear(run, p) {
      var l, k :| 0 <= l < |track| && 1 <= k < |track[l]| && NearSegment(p, track[l][k - 1], track[l][k], r);
      assert LineNear(p, track[l], r);
    }
  }

  ghost function NearRuns(runs: map<nat, RunRow>, ids: seq<nat>, p: Point): set<nat> {
    set id | id in ids && id in runs && RunNear(runs[id], p)
  }

  lemma {:induction false} PassesAreRuns(runs: map<nat, RunRow>, ids: seq<nat>, p: Point)
    requires NoRepeats(ids) && forall k :: 0 <= k < |ids| ==> ids[k] in runs
    ensures Passes(p, TracksOf(runs, ids)) == |NearRuns(runs, ids, p)|
  {
    hide RunNear, Covers, TrackOf;
    if |ids| == 0 {
      assert NearRuns(runs, ids, p) == {};
    } else {
      var n := |ids| - 1;
      PassesAreRuns(runs, ids[..n], p);
      TrackIsRun(runs[ids[n]], p);
      assert TracksOf(runs, ids)[..n] == TracksOf(runs, ids[..n]);
      assert ids == ids[..n] + [ids[n]];
      var before := NearRuns(runs, ids[..n], p);
      if RunNear(runs[ids[n]], p) {
        assert NearRuns(runs, ids, p) == before + {ids[n]};
      } else {
        assert NearRuns(runs, ids, p) == before;
      }
    }
  }

  /** Which runs pass does not depend on the order they are listed in. */
  lemma NearInAnyOrder(runs: map<nat, RunRow>, ids: seq<nat>, order: seq<nat>, p: Point)
    requires multiset(ids) == multiset(order)
    ensures NearRuns(runs, ids, p) == NearRuns(runs, order, p)
  {
    hide RunNear;
    forall id ensures id in ids <==> id in order {
      assert id in multiset(ids) <==> id in multiset(order);
    }
  }

  lemma {:induction false} OnceEach(order: seq<nat>)
    requires forall v :: multiset(order)[v] <= 1
    ensures NoRepeats(order)
  {
    if |order| > 0 {
      var n := |order| - 1;
      assert order == order[..n] + [order[n]];
      assert multiset(order) == multiset(order[..n]) + multiset{order[n]};
      forall v ensures multiset(order[..n])[v] <= 1 && multiset(order[..n])[order[n]] == 0 {
        assert multiset(order)[v] == multiset(order[..n])[v] + multiset{order[n]}[v];
        assert multiset(order)[order[n]] == multiset(order[..n])[order[n]] + 1;
      }
      OnceEach(order[..n]);
      forall j | 0 <= j < n ensures order[j] != order[n] {
        assert order[..n][j] in multiset(order[..n]);
      }
    }
  }

  lemma SameBagNoRepeats(ids: seq<nat>, order: seq<nat>)
    requires NoRepeats(ids) && multiset(ids) == multiset(order)
    ensures NoRepeats(order)
  {
    NoRepeatsBag(ids);
    OnceEach(order);
  }

  /** The tracks a detection has read count, at every point, the distinct requested runs that pass it. */
  lemma RequestedPasses(db: DB, area: nat, row: AreaRow, requested: seq<nat>, order: seq<nat>, algorithm: string,
                        resolution: real, p: Point)
    requires IsListing(order, UniqueIds(requested), db.runs)
    requires ReadRuns(db, area, row, UniqueIds(requested), order, algorithm, resolution).DetectReady?
    ensures forall id :: id in requested ==> id in db.runs
    ensures Passes(p, ReadRuns(db, area, row, UniqueIds(requested), order, algorithm, resolution).tracks)
         == |set id | id in requested && RunNear(db.runs[id], p)|
  {
    hide UniqueIds, RunNear, IsListing, Misfit, NoRepeats, Passes;
    UniqueIdsMeaning(requested);
    var ids := UniqueIds(requested);
    ListsExisting(order, ids, db.runs);
    ReadIsWhole(db, area, row, ids, order, algorithm, resolution);
    ListingIsPermutation(order, ids, db.runs);
    SameBagNoRepeats(ids, order);
    PassesAreRuns(db.runs, order, p);
    forall id ensures id in order <==> id in requested {
      assert id in multiset(ids) <==> id in multiset(order);
    }
    assert NearRuns(db.runs, order, p) == set id | id in requested && RunNear(db.runs[id], p);
  }

  lemma ReadIsWhole(db: DB, area: nat, row: AreaRow, ids: seq<nat>, order: seq<nat>, algorithm: string, resolution: real)
    requires IsListing(order, ids, db.runs) && ReadRuns(db, area, row, ids, order, algorithm, resolution).DetectReady?
    ensures |order| == |ids| && forall k :: 0 <= k < |order| ==> order[k] in db.runs
    ensures ReadRuns(db, area, row, ids, order, algorithm, resolution).tracks == TracksOf(db.runs, order)
  {
    hide TracksOf, Checksums, Misplaced;
  }

  /** And whatever else happens, the tracks a waiting detection holds still count the runs as stored. */
  lemma WaitingPasses(hypot: Hypot, events: seq<Event>, t: nat, p: Point)
    requires t in Run(hypot, events).threads
    requires Run(hypot, events).threads[t].DetectReady? || Run(hypot, events).threads[t].DetectMissed?
    ensures var s := Run(hypot, events);
            Passes(p, s.threads[t].tracks) == |NearRuns(s.db.runs, s.threads[t].ids, p)|
  {
    hide Run, SystemOk, DetectOk, NearRuns;
    Reachable(hypot, events);
    var s := Run(hypot, events);
    HeldTracks(hypot, s, t);
    var r := s.threads[t];
    SameBagNoRepeats(r.ids, r.order);
    PassesAreRuns(s.db.runs, r.order, p);
    NearInAnyOrder(s.db.runs, r.ids, r.order, p);
  }

  lemma HeldTracks(hypot: Hypot, s: System, t: nat)
    requires SystemOk(hypot, s) && t in s.threads && (s.threads[t].DetectReady? || s.threads[t].DetectMissed?)
    ensures var r := s.threads[t];
            && AllUsable(s.db.runs, r.order) && r.tracks == TracksOf(s.db.runs, r.order)
            && NoRepeats(r.ids) && multiset(r.ids) == multiset(r.order)
  {
    hide SystemOk, ValidBoundary, GapEvolves, AreaEvolves, PlanEvolves, RunEvolves, ReplayThreadOk, DataOk, AreaOk, ValidGeometry;
    ThreadHolds(hypot, s, t);
  }

  // ----- what stored figures say

  /** The sampled cells at whose centre at least n source runs of the gap passed. */
  ghost function CellsFlown(runs: map<nat, RunRow>, data: GapData, n: nat): set<Cell>
    requires |data.analysed| > 0 && Vertices(data.analysed) != {} && data.key.resolution > 0.0
  {
    set c | c in Inside(data.analysed, data.key.resolution)
            && |NearRuns(runs, data.sourceRuns, Centre(Bounds(data.analysed), data.key.resolution, c))| >= n
  }

  lemma FlownCells(runs: map<nat, RunRow>, data: GapData)
    requires |data.analysed| > 0 && Vertices(data.analysed) != {} && data.key.resolution > 0.0
    requires AllUsable(runs, data.sourceRuns) && NoRepeats(data.sourceRuns)
    ensures var tracks := TracksOf(runs, data.sourceRuns);
            && CellsSeen(data.analysed, tracks, data.key.resolution) == CellsFlown(runs, data, 1)
            && CellsSeenTwice(data.analysed, tracks, data.key.resolution) == CellsFlown(runs, data, 2)
  {
    hide Inside, Bounds, Vertices, NearRuns, Seen, SeenTwice, TracksOf, Usable, Centre;
    var tracks, b := TracksOf(runs, data.sourceRuns), Bounds(data.analysed);
    forall c
      ensures var p := Centre(b, data.key.resolution, c);
              && (Seen(p, tracks) <==> |NearRuns(runs, data.sourceRuns, p)| >= 1)
              && (SeenTwice(p, tracks) <==> |NearRuns(runs, data.sourceRuns, p)| >= 2)
    {
      var p := Centre(b, data.key.resolution, c);
      SeenIff(p, tracks);
      PassesAreRuns(runs, data.sourceRuns, p);
    }
  }

  /** What the stored figures mean in terms of the stored runs. */
  ghost predicate FiguresAreFlown(runs: map<nat, RunRow>, data: GapData)
    requires |data.analysed| > 0 && Vertices(data.analysed) != {} && data.key.resolution > 0.0
  {
    var cells := Inside(data.analysed, data.key.resolution);
    var n, open := |cells|, |cells - CellsFlown(runs, data, 1)|;
    && n > 0 && data.result.sampleCells == n && data.result.area == Area(data.analysed)
    && Times(data.result.coverageRatio, n as real) == |CellsFlown(runs, data, 1)| as real
    && Times(data.result.overlapRatio, n as real) == |CellsFlown(runs, data, 2)| as real
    && Times(data.result.gapRatio, n as real) == open as real
    && data.severity == if 100 * open >= 12 * n then Critical else if 100 * open >= 5 * n then Major else Minor
  }

  /** In every reachable state: the coverage of a stored gap is the share of sampled cells that one of
      its source runs passed, its overlap the share two of them passed, its gap the share none passed,
      and its severity goes by that share. */
  lemma StoredFiguresFlown(hypot: Hypot, events: seq<Event>, g: nat)
    requires g in Run(hypot, events).db.gaps
    ensures var db := Run(hypot, events).db;
            var data := db.gaps[g].data;
            && |data.analysed| > 0 && Vertices(data.analysed) != {} && data.key.resolution > 0.0
            && FiguresAreFlown(db.runs, data)
  {
    hide Run, SystemOk, GapOk;
    Reachable(hypot, events);
    var db := Run(hypot, events).db;
    GapStored(hypot, Run(hypot, events), g);
    GapFigures(db, db.gaps[g]);
  }

  lemma GapStored(hypot: Hypot, s: System, g: nat)
    requires SystemOk(hypot, s) && g in s.db.gaps
    ensures GapOk(s.db, s.db.gaps[g])
  {
    hide GapOk, ThreadOk, ReplaysOk;
  }

  lemma GapFigures(db: DB, gap: GapRow)
    requires GapOk(db, gap)
    ensures var data := gap.data;
            && |data.analysed| > 0 && Vertices(data.analysed) != {} && data.key.resolution > 0.0
            && FiguresAreFlown(db.runs, data)
  {
    var data := gap.data;
    hide Assess, TracksOf, GapVersion, IsPolygon, Vertices, Inside, SeverityForRatio, CellsSeen, CellsSeenTwice, CellsFlown,
         NoRepeats, Times, Area, Checksums;
    var tracks := TracksOf(db.runs, data.sourceRuns);
    PolygonHasVertices(data.analysed);
    FiguresCount(data.analysed, tracks, data.key.resolution, data.result);
    SeverityByCells(data.analysed, tracks, data.key.resolution, data.result);
    FlownCells(db.runs, data);
  }

  // ----- when the analysis of a stored area fails

  lemma {:induction false} FlatShoelace(path: seq<Point>, x: real)
    requires |path| > 0 && forall k :: 0 <= k < |path| ==> path[k].x == x
    ensures Shoelace(path) == x * (path[|path| - 1].y - path[0].y)
  {
    if |path| > 1 {
      var n := |path| - 1;
      FlatShoelace(path[..n], x);
      assert Wedge(path[n - 1], path[n]) == x * (path[n].y - path[n - 1].y);
    }
  }

  lemma {:induction false} LevelShoelace(path: seq<Point>, y: real)
    requires |path| > 0 && forall k :: 0 <= k < |path| ==> path[k].y == y
    ensures Shoelace(path) == -(y * (path[|path| - 1].x - path[0].x))
  {
    if |path| > 1 {
      var n := |path| - 1;
      LevelShoelace(path[..n], y);
      assert Wedge(path[n - 1], path[n]) == -(y * (path[n].x - path[n - 1].x));
    }
  }

  lemma FlatArea(ring: Ring)
    requires |ring| > 0
    requires (forall k :: 0 <= k < |ring| ==> ring[k].x == ring[0].x) || (forall k :: 0 <= k < |ring| ==> ring[k].y == ring[0].y)
    ensures SignedArea(ring) == 0.0
  {
    var a, b := ring[0], ring[|ring| - 1];
    if forall k :: 0 <= k < |ring| ==> ring[k].x == a.x {
      FlatShoelace(ring, a.x);
      assert Wedge(b, a) == a.x * (a.y - b.y);
    } else {
      LevelShoelace(ring, a.y);
      assert Wedge(b, a) == -(a.y * (a.x - b.x));
    }
  }

  lemma {:induction false} HolesTake(holes: seq<Ring>)
    ensures HoleArea(holes) >= 0.0
  {
    if |holes| > 0 {
      HolesTake(holes[..|holes| - 1]);
    }
  }

  /** A polygon of positive area has a width and a height. */
  lemma PolygonHasExtent(b: Polygon)
    requires IsPolygon(b) && Vertices(b) != {}
    ensures Bounds(b).minX < Bounds(b).maxX && Bounds(b).minY < Bounds(b).maxY
  {
    hide SignedArea;
    HolesTake(b[1..]);
    assert SignedArea(b[0]) != 0.0;
    var box := Bounds(b);
    forall k | 0 <= k < |b[0]| ensures InBox(b[0][k], box) {
      assert b[0][k] in Vertices(b);
    }
    hide Bounds, Vertices;
    if box.maxX <= box.minX || box.maxY <= box.minY {
      FlatArea(b[0]);
    }
  }

  /** The analysis of a polygon by some tracks succeeds exactly when no more than 60000 cells span the
      polygon and it contains the centre of one; otherwise it is too large, or samples nothing. */
  lemma PolygonOutcome(boundary: Polygon, tracks: seq<Track>, res: real, columns: int, rows: int)
    requires IsPolygon(boundary) && Vertices(boundary) != {} && res > 0.0 && tracks != []
    requires Spans(boundary, res, columns, rows)
    ensures Assess(boundary, tracks, res).Ok? <==>
              columns * rows <= 60000 && exists c :: Contains(boundary, Centre(Bounds(boundary), res, c))
    ensures Assess(boundary, tracks, res) == Err(GeometryTooLarge) <==> columns * rows > 60000
  {
    PolygonHasExtent(boundary);
    AssessOutcome(boundary, tracks, res, columns, rows);
  }
}
