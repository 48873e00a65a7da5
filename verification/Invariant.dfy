/** What holds of the database and of every thread in every reachable state. */
module Invariant {
  import opened Euclid
  import opened Options
  import opened Rings
  import opened Coverage
  import opened States
  import opened Replay
  import opened Records
  import opened Services
  import opened Evolution
  import opened Text

  // ----- the database

  ghost predicate KeysOk(db: DB) {
    && (forall id :: id in db.areas ==> id < db.next)
    && (forall id :: id in db.plans ==> id < db.next)
    && (forall id :: id in db.runs ==> id < db.next)
    && (forall id :: id in db.gaps ==> id < db.next)
    && (forall id :: id in db.replays ==> id < db.next)
  }

  ghost predicate AreaOk(area: AreaRow) {
    area.version >= 1 && BoundArea(area.fields) && ValidGeometry(area.fields)
  }

  ghost predicate AreasOk(db: DB) {
    forall id :: id in db.areas ==> AreaOk(db.areas[id])
  }

  ghost predicate PlansOk(db: DB) {
    forall id :: id in db.plans ==> db.plans[id].version >= 1 && db.plans[id].area in db.areas
  }

  /** The version an imported run has in each state. */
  ghost predicate RunVersion(run: RunRow) {
    match run.state
    case Imported => run.version == 1
    case QualityChecked => run.version == 2
    case Processing => run.version == 3
    case Processed => run.version == 4
    case Superseded => run.version == 5
    case Rejected => 2 <= run.version <= 4
  }

  /** What an import has been checked for. */
  predicate DataOk(data: RunData) {
    ValidLines(data.track) && 0.0 < data.swath && data.startedAt < data.endedAt
  }

  /** A run's plan is locked, its version fits its state, and with invalid navigation it gets no
      further than rejection. */
  ghost predicate RunOk(db: DB, run: RunRow) {
    && DataOk(run.data)
    && run.data.plan in db.plans && db.plans[run.data.plan].state == LockedPlan
    && RunVersion(run)
    && (run.data.navigation == Invalid ==> run.state == Imported || run.state == Rejected)
  }

  ghost predicate RunsOk(db: DB) {
    forall id :: id in db.runs ==> RunOk(db, db.runs[id])
  }

  ghost predicate ChecksumsUnique(db: DB) {
    forall i, j :: i in db.runs && j in db.runs && ChecksumOf(db.runs[i].data) == ChecksumOf(db.runs[j].data) ==> i == j
  }

  ghost predicate GapVersion(gap: GapRow) {
    match gap.state
    case Detected => gap.version == 1
    case Reviewed => gap.version == 2
    case Accepted => gap.version == 3
    case FalsePositive => gap.version == 3
    case Resurveyed => gap.version == 4
    case Closed => 4 <= gap.version <= 5
  }

  ghost predicate AllUsable(runs: map<nat, RunRow>, ids: seq<nat>) {
    forall k :: 0 <= k < |ids| ==> ids[k] in runs && Usable(runs[ids[k]].state)
  }

  /** The stored result is what an analysis of the source runs, against the boundary read at the
      time, answers now and forever. */
  ghost predicate SnapshotOk(runs: map<nat, RunRow>, data: GapData)
    requires AllUsable(runs, data.sourceRuns)
  {
    && data.key.checksums == multiset(Checksums(runs, data.sourceRuns))
    && ValidBoundary(data.analysed) && Vertices(data.analysed) != {}
    && Assess(data.analysed, TracksOf(runs, data.sourceRuns), data.key.resolution) == Ok(data.result)
    && data.severity == SeverityForRatio(data.result.gapRatio)
  }

  /** Until its first review, a gap's explanation is the text of its analysis. */
  ghost predicate TextOk(gap: GapRow) {
    && |gap.explanation| <= MAX_EXPLANATION
    && 0.0 < gap.data.key.resolution <= 100.0
    && (gap.state == Detected ==>
          gap.explanation == Analysed(gap.data.key.resolution, gap.data.result.sampleCells, gap.data.result.filteredFragments))
  }

  ghost predicate GapOk(db: DB, gap: GapRow) {
    && GapVersion(gap) && TextOk(gap) && NoRepeats(gap.data.sourceRuns)
    && AllUsable(db.runs, gap.data.sourceRuns) && SnapshotOk(db.runs, gap.data)
  }

  ghost predicate GapsOk(db: DB) {
    forall id :: id in db.gaps ==> GapOk(db, db.gaps[id])
  }

  ghost predicate GapKeysUnique(db: DB) {
    forall i, j :: i in db.gaps && j in db.gaps && db.gaps[i].data.key == db.gaps[j].data.key ==> i == j
  }

  ghost predicate ReplayOk(hypot: Hypot, db: DB, replay: ReplayRow) {
    && replay.run in db.runs && Usable(db.runs[replay.run].state)
    && replay.key.checksum == ChecksumOf(db.runs[replay.run].data)
    && replay.key.params.dropoutFactor >= 1.5
    && ReplayOf(hypot, db.runs[replay.run], replay.key.params) == Ok(replay.snapshot)
  }

  ghost predicate ReplaysOk(hypot: Hypot, db: DB) {
    forall id :: id in db.replays ==> ReplayOk(hypot, db, db.replays[id])
  }

  ghost predicate ReplayKeysUnique(db: DB) {
    forall i, j :: i in db.replays && j in db.replays && db.replays[i].key == db.replays[j].key ==> i == j
  }

  ghost predicate DbOk(hypot: Hypot, db: DB) {
    && KeysOk(db) && AreasOk(db) && PlansOk(db) && RunsOk(db) && ChecksumsUnique(db)
    && GapsOk(db) && GapKeysUnique(db) && ReplaysOk(hypot, db) && ReplayKeysUnique(db)
  }

  // ----- threads

  /** The runs a detection has read are still usable, and give the tracks and checksums it holds. */
  ghost predicate DetectOk(db: DB, ids: seq<nat>, order: seq<nat>, tracks: seq<Track>, key: CoverageKey, boundary: Polygon) {
    && AllUsable(db.runs, ids) && AllUsable(db.runs, order)
    && NoRepeats(ids) && multiset(ids) == multiset(order)
    && tracks == TracksOf(db.runs, order)
    && key.checksums == multiset(Checksums(db.runs, order))
    && ValidBoundary(boundary) && 0.0 < key.resolution <= 100.0
  }

  ghost predicate ReplayThreadOk(db: DB, run: nat, before: RunRow, key: ReplayKey) {
    && run in db.runs && RunEvolves(before, db.runs[run]) && before.state == Processed
    && key.checksum == ChecksumOf(before.data) && key.params.dropoutFactor >= 1.5
  }

  /** What a thread has read once is still an earlier state of the row it is about to change. */
  ghost predicate ThreadOk(db: DB, thread: Thread) {
    match thread
    case Finished(_) => true
    case AreaChecked(_, fields) => BoundArea(fields) && ValidGeometry(fields)
    case AreaRead(id, _, before, fields) =>
      && id in db.areas && AreaEvolves(before, db.areas[id])
      && before.fields.status != ArchivedArea && BoundArea(fields) && ValidGeometry(fields)
    case PlanChecked(area, _) => area in db.areas
    case PlanRead(id, _, before, _) => id in db.plans && PlanEvolves(before, db.plans[id]) && before.state == DraftPlan
    case LockRead(id, _, before) => id in db.plans && PlanEvolves(before, db.plans[id]) && before.state == DraftPlan
    case CopyRead(before) => before.area in db.areas
    case ImportRead(data) => data.plan in db.plans && db.plans[data.plan].state == LockedPlan && DataOk(data)
    case ImportMissed(data) => data.plan in db.plans && db.plans[data.plan].state == LockedPlan && DataOk(data)
    case RunRead(id, _, before, target) =>
      && id in db.runs && RunEvolves(before, db.runs[id]) && before.state.CanTransition(target)
      && (target == QualityChecked ==> before.data.navigation != Invalid)
    case DetectRead(area, before, ids, _, requested) =>
      && area in db.areas && AreaEvolves(before, db.areas[area]) && AreaOk(before)
      && NoRepeats(ids) && (requested == 0.0 || 0.0 < requested <= 100.0)
    case DetectReady(ids, order, tracks, key, boundary) => DetectOk(db, ids, order, tracks, key, boundary)
    case DetectMissed(ids, order, tracks, key, boundary) => DetectOk(db, ids, order, tracks, key, boundary)
    case GapRead(id, _, before, target, note) =>
      id in db.gaps && GapEvolves(before, db.gaps[id]) && before.state.CanTransition(target) && MIN_NOTE <= |note| <= MAX_NOTE
    case GapMoved(id, before, written) =>
      id in db.gaps && GapEvolves(before, written) && before != written && GapEvolves(written, db.gaps[id])
    case GapReread(id, before, written, after) =>
      && id in db.gaps && GapEvolves(before, written) && before != written
      && GapEvolves(written, after) && GapEvolves(after, db.gaps[id])
    case ReplayRead(run, before, key) => ReplayThreadOk(db, run, before, key)
    case ReplayMissed(run, before, key) => ReplayThreadOk(db, run, before, key)
  }

  ghost predicate SystemOk(hypot: Hypot, s: System) {
    DbOk(hypot, s.db) && forall t :: t in s.threads ==> ThreadOk(s.db, s.threads[t])
  }

  // ----- identifiers

  predicate NoRepeats(s: seq<nat>) {
    forall j, k :: 0 <= j < k < |s| ==> s[j] != s[k]
  }

  lemma {:induction false} UniqueIdsMeaning(values: seq<nat>)
    ensures NoRepeats(UniqueIds(values))
    ensures forall v :: v in UniqueIds(values) <==> v in values
  {
    if |values| > 0 {
      var n := |values| - 1;
      UniqueIdsMeaning(values[..n]);
      assert values == values[..n] + [values[n]];
    }
  }

  ghost function ToSet(s: seq<nat>): set<nat> { set v | v in s }

  lemma {:induction false} NoRepeatsBag(s: seq<nat>)
    requires NoRepeats(s)
    ensures multiset(s) == multiset(ToSet(s)) && |ToSet(s)| == |s|
  {
    if |s| > 0 {
      var n := |s| - 1;
      NoRepeatsBag(s[..n]);
      assert s == s[..n] + [s[n]];
      assert ToSet(s) == ToSet(s[..n]) + {s[n]};
    } else {
      assert ToSet(s) == {};
    }
  }

  /** A listing as long as the requested identifiers is a permutation of them. */
  lemma ListingIsPermutation(order: seq<nat>, ids: seq<nat>, runs: map<nat, RunRow>)
    requires IsListing(order, ids, runs) && NoRepeats(ids) && |order| == |ids|
    ensures multiset(order) == multiset(ids)
  {
    NoRepeatsBag(order);
    NoRepeatsBag(ids);
    assert ToSet(order) <= ToSet(ids);
    SameSize(ToSet(order), ToSet(ids));
  }

  lemma SameSize(small: set<nat>, big: set<nat>)
    requires small <= big && |small| == |big|
    ensures small == big
  {
    assert big == small + (big - small);
  }

  // ----- rows that stay

  lemma RunsStay(a: DB, b: DB, ids: seq<nat>)
    requires RunsEvolve(a, b) && AllUsable(a.runs, ids)
    ensures AllUsable(b.runs, ids)
    ensures TracksOf(b.runs, ids) == TracksOf(a.runs, ids)
    ensures Checksums(b.runs, ids) == Checksums(a.runs, ids)
  {
    forall k | 0 <= k < |ids| ensures ids[k] in b.runs && Usable(b.runs[ids[k]].state)
                                   && b.runs[ids[k]].data == a.runs[ids[k]].data {
      assert RunEvolves(a.runs[ids[k]], b.runs[ids[k]]);
    }
  }

  lemma GapStays(a: DB, b: DB, gap: GapRow)
    requires RunsEvolve(a, b) && GapOk(a, gap)
    ensures GapOk(b, gap)
  {
    hide Assess, ValidBoundary, TextOk, GapVersion;
    RunsStay(a, b, gap.data.sourceRuns);
  }

  lemma ReplayStays(hypot: Hypot, a: DB, b: DB, replay: ReplayRow)
    requires RunsEvolve(a, b) && ReplayOk(hypot, a, replay)
    ensures ReplayOk(hypot, b, replay)
  {
    hide Replayed;
    assert RunEvolves(a.runs[replay.run], b.runs[replay.run]);
  }

  /** A plan that is locked stays locked. */
  lemma LockedStays(a: DB, b: DB, id: nat)
    requires PlansEvolve(a, b) && id in a.plans && a.plans[id].state == LockedPlan
    ensures id in b.plans && b.plans[id].state == LockedPlan
  {
    assert PlanEvolves(a.plans[id], b.plans[id]);
  }

  lemma UsableStays(a: DB, b: DB, ids: seq<nat>)
    requires RunsEvolve(a, b) && AllUsable(a.runs, ids)
    ensures AllUsable(b.runs, ids)
  {
    RunsStay(a, b, ids);
  }

  lemma DetectStays(a: DB, b: DB, ids: seq<nat>, order: seq<nat>, tracks: seq<Track>, key: CoverageKey, boundary: Polygon)
    requires RunsEvolve(a, b) && DetectOk(a, ids, order, tracks, key, boundary)
    ensures DetectOk(b, ids, order, tracks, key, boundary)
  {
    hide ValidBoundary, RunEvolves, RunsEvolve;
    UsableStays(a, b, ids);
    RunsStay(a, b, order);
  }

  /** What an area or plan request knows stays true. */
  lemma PlanningStays(a: DB, b: DB, thread: Thread)
    requires Evolves(a, b) && ThreadOk(a, thread)
    requires thread.AreaRead? || thread.DetectRead? || thread.PlanRead? || thread.LockRead? || thread.ImportRead? || thread.ImportMissed?
    ensures ThreadOk(b, thread)
  {
    hide BoundArea, ValidGeometry, AreaOk, AreaEvolves, PlanEvolves, NoRepeats;
    match thread
    case AreaRead(id, _, before, _) => AreaEvolvesTransitive(before, a.areas[id], b.areas[id]);
    case DetectRead(area, before, _, _, _) => AreaEvolvesTransitive(before, a.areas[area], b.areas[area]);
    case PlanRead(id, _, before, _) => PlanEvolvesTransitive(before, a.plans[id], b.plans[id]);
    case LockRead(id, _, before) => PlanEvolvesTransitive(before, a.plans[id], b.plans[id]);
    case ImportRead(data) => LockedStays(a, b, data.plan);
    case ImportMissed(data) => LockedStays(a, b, data.plan);
  }

  /** What a run, detection, review or replay request knows stays true. */
  lemma WorkStays(a: DB, b: DB, thread: Thread)
    requires Evolves(a, b) && ThreadOk(a, thread)
    requires thread.RunRead? || thread.DetectReady? || thread.DetectMissed? || thread.GapRead? || thread.GapMoved?
             || thread.GapReread? || thread.ReplayRead? || thread.ReplayMissed?
    ensures ThreadOk(b, thread)
  {
    hide DetectOk, RunEvolves, GapEvolves;
    match thread
    case DetectReady(ids, order, tracks, key, boundary) => DetectStays(a, b, ids, order, tracks, key, boundary);
    case DetectMissed(ids, order, tracks, key, boundary) => DetectStays(a, b, ids, order, tracks, key, boundary);
    case GapRead(id, _, before, _, _) => GapEvolvesTransitive(before, a.gaps[id], b.gaps[id]);
    case GapMoved(id, _, written) => GapEvolvesTransitive(written, a.gaps[id], b.gaps[id]);
    case GapReread(id, _, _, after) => GapEvolvesTransitive(after, a.gaps[id], b.gaps[id]);
    case RunRead(id, _, before, _) => RunEvolvesTransitive(before, a.runs[id], b.runs[id]);
    case ReplayRead(run, before, _) => RunEvolvesTransitive(before, a.runs[run], b.runs[run]);
    case ReplayMissed(run, before, _) => RunEvolvesTransitive(before, a.runs[run], b.runs[run]);
  }

  /** Whatever other threads do to the database, what a thread knows stays true. */
  lemma ThreadStays(a: DB, b: DB, thread: Thread)
    requires Evolves(a, b) && ThreadOk(a, thread)
    ensures ThreadOk(b, thread)
  {
    hide BoundArea, ValidGeometry, Evolves;
    if thread.Finished? || thread.AreaChecked? {
    } else if thread.PlanChecked? || thread.CopyRead? {
      AreasStay(a, b);
    } else if thread.AreaRead? || thread.DetectRead? || thread.PlanRead? || thread.LockRead? || thread.ImportRead? || thread.ImportMissed? {
      hide ThreadOk;
      PlanningStays(a, b, thread);
    } else {
      hide ThreadOk;
      WorkStays(a, b, thread);
    }
  }

  lemma AreasStay(a: DB, b: DB)
    requires Evolves(a, b)
    ensures a.areas.Keys <= b.areas.Keys
  {
    hide AreaEvolves, PlansEvolve, RunsEvolve, GapsEvolve, ReplaysEvolve;
  }

  // ----- permuted sequences

  ghost function Map<T, U>(f: T -> U, s: seq<T>): seq<U> {
    seq(|s|, k requires 0 <= k < |s| => f(s[k]))
  }

  ghost function Without<T>(s: seq<T>, k: nat): seq<T>
    requires k < |s|
  {
    s[..k] + s[k + 1..]
  }

  lemma WithoutBag<T>(s: seq<T>, k: nat)
    requires k < |s|
    ensures multiset(s) == multiset{s[k]} + multiset(Without(s, k))
  {
    assert s == s[..k] + [s[k]] + s[k + 1..];
  }

  lemma MapWithout<T, U>(f: T -> U, s: seq<T>, k: nat)
    requires k < |s|
    ensures multiset(Map(f, s)) == multiset{f(s[k])} + multiset(Map(f, Without(s, k)))
  {
    WithoutBag(Map(f, s), k);
    assert Map(f, Without(s, k)) == Without(Map(f, s), k);
  }

  lemma {:induction false} MapPermuted<T, U>(f: T -> U, s: seq<T>, t: seq<T>)
    requires multiset(s) == multiset(t)
    ensures multiset(Map(f, s)) == multiset(Map(f, t))
    decreases |s|
  {
    assert |s| == |multiset(s)| == |multiset(t)| == |t|;
    if |s| > 0 {
      assert s[0] in multiset(t);
      var k :| 0 <= k < |t| && t[k] == s[0];
      hide Map, Without;
      WithoutBag(s, 0);
      WithoutBag(t, k);
      assert multiset(Without(s, 0)) == multiset(s) - multiset{s[0]};
      assert multiset(Without(t, k)) == multiset(t) - multiset{t[k]};
      assert |multiset(Without(s, 0))| < |multiset(s)|;
      MapPermuted(f, Without(s, 0), Without(t, k));
      MapWithout(f, s, 0);
      MapWithout(f, t, k);
    }
  }

  ghost function SomeTrack(runs: map<nat, RunRow>, id: nat): Track {
    if id in runs then TrackOf(runs[id]) else Track([], 0.0)
  }

  ghost function SomeChecksum(runs: map<nat, RunRow>, id: nat): Checksum {
    if id in runs then ChecksumOf(runs[id].data) else Checksum("", 0, 0, 0, 0)
  }

  /** The same runs in another order give the same tracks and checksums in another order. */
  lemma RunsPermuted(runs: map<nat, RunRow>, s: seq<nat>, t: seq<nat>)
    requires AllUsable(runs, s) && AllUsable(runs, t) && multiset(s) == multiset(t)
    ensures multiset(TracksOf(runs, s)) == multiset(TracksOf(runs, t))
    ensures multiset(Checksums(runs, s)) == multiset(Checksums(runs, t))
  {
    MapPermuted(id => SomeTrack(runs, id), s, t);
    MapPermuted(id => SomeChecksum(runs, id), s, t);
    assert Map(id => SomeTrack(runs, id), s) == TracksOf(runs, s);
    assert Map(id => SomeTrack(runs, id), t) == TracksOf(runs, t);
    assert Map(id => SomeChecksum(runs, id), s) == Checksums(runs, s);
    assert Map(id => SomeChecksum(runs, id), t) == Checksums(runs, t);
  }

  ghost function TrackWith(runs: map<nat, RunRow>, checksum: Checksum): Track {
    if id :| id in runs && ChecksumOf(runs[id].data) == checksum then TrackOf(runs[id]) else Track([], 0.0)
  }

  /** With unique checksums, equal bags of checksums mean equal bags of tracks. */
  lemma ChecksumsDetermineTracks(db: DB, s: seq<nat>, t: seq<nat>)
    requires ChecksumsUnique(db) && AllUsable(db.runs, s) && AllUsable(db.runs, t)
    requires multiset(Checksums(db.runs, s)) == multiset(Checksums(db.runs, t))
    ensures multiset(TracksOf(db.runs, s)) == multiset(TracksOf(db.runs, t))
  {
    MapPermuted(c => TrackWith(db.runs, c), Checksums(db.runs, s), Checksums(db.runs, t));
    TracksByChecksum(db, s);
    TracksByChecksum(db, t);
  }

  lemma TracksByChecksum(db: DB, s: seq<nat>)
    requires ChecksumsUnique(db) && AllUsable(db.runs, s)
    ensures Map(c => TrackWith(db.runs, c), Checksums(db.runs, s)) == TracksOf(db.runs, s)
  {
    forall k | 0 <= k < |s| ensures TrackWith(db.runs, ChecksumOf(db.runs[s[k]].data)) == TrackOf(db.runs[s[k]]) {
    }
  }
}
