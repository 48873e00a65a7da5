# Sonar survey coverage planner: a verified model

The planner takes survey areas (polygons with an analysis resolution), transect plans (lines to be
flown), imported sonar runs (recorded tracks with a swath and a navigation quality), coverage gaps
(grid analyses of which cells the tracks covered, with a review workflow) and run replays (frozen
sample-by-sample quality snapshots of a run). This project models the Go backend's geometry, its
replay engine, the lifecycle of the stored records under concurrent requests, and the request
limiter, and proves what they promise.

The files, in reading order:

- `Euclid`, `Rings`, `RingLaws`: exact plane geometry: distances, the clamped projection, even-odd
  containment, shoelace area, bounding boxes, and what containment and area are of triangles and holes.
- `Coverage`, `CoverageLaws`, `CoverageMeaning`, `BoundaryLaws`, `Transects`: the grid analysis as loops
  proved equal to a set-based definition, its laws, what its figures and its recommended line mean on the
  plane, what it sees of a boundary, and line generation up to the end-to-end theorem that a generated
  plan, flown exactly, leaves no gap.
- `OrderStats`, `Overlap`, `OverlapLaws`, `Replay`, `ReplayLaws`, `ReplayMeaning`: median, the stamped cell
  index and its work bound, batches, flags, dropouts, the frame and summary accounting, and every frame
  and figure in terms of the vertices flown.
- `Limiter`: the fixed-window limiter as a class with its eviction, and its sliding bound.
- `States`, `Text`, `Records`, `Services`: transition tables, the stored texts and their column limits,
  rows and atomic repository operations, and the services as a protocol. A request is a thread; a step
  is one repository operation; a run is any list of events, each starting a request or stepping one, so
  every interleaving is a run.
- `Evolution`, `Invariant`, `Preservation`: how rows may change, what holds of the database and of
  every pending request, and the proof that every step of every request keeps it.
- `Runs`, `Versions`, `Reviews`, `Transitions`, `Locking`, `Snapshots`, `Detections`: the theorems over
  whole runs.
- `Squares`, `Counterexamples`: runs from the empty database that break the promises which hold only
  under a condition.
- `Serving`, `Promises`, `Requirements`, `Effects`, `Failures`, `Store`: a request served alone, exactly when
  it is done, what it then has written and what its failures mean, and the services as methods over
  mutable tables that do just that.

Coordinates are exact reals. The hypotenuse routine is a parameter assumed only to be the
non-negative root of the squared distance; the triangle inequality is derived. "No gap seen yet" is an
option instead of infinity. The input hashes and the checksum of a run are modelled as the tuples they
digest, which assumes that SHA-256 and the number formatting before it are injective; sorting the
checksums makes the coverage tuple hold a multiset. The track text of an import and the lines parsed
from it are both given. A gap row carries one auxiliary field that is not a column, the boundary its
analysis read, so that staleness can be stated. Column limits are those of the default database.

## Promises that hold only under a condition

- A sample flagged as overlapping need not lie in an overlap cell (`FlaggedInOneBatch`). A cell is one
  exactly when some sample returns to it more than a window after the one before (`CellRepeatedIff`);
  a sample that does so in its own cell is flagged (`FlaggedOnReturn`).
- The limiter lets at most twice its capacity through within any window length only when calls reach
  the lock in the order of their clock readings (`NeverMoreThanTwice`). The clock is read before the
  lock is taken. With readings that lag by two ticks or more, up to a window, the bound is three times
  the capacity less two (`LaggingBound`), and it is reached (`LagBoundMet`): with capacity 3 and window
  10, calls at 1, 10, 10, 11, 11, 11, 21, 19, 19 are all allowed, seven of them within [10, 20). Its
  answers are those of a limiter that never evicts in either case (`RateLimiter.Allow`).
- The refusal of a plan update says that a locked plan can only be copied. An update that was accepted
  while the plan was a draft, but expects the version that locking will give it, overwrites the locked
  plan (`LockedPlanOverwritten`): the update tests the version but not the state. It can happen exactly
  when the expected version is beyond the draft's current one (`LockedOverwriteIff`), and likewise for
  archived areas (`ArchivedAreaOverwritten`, `ArchivedOverwriteIff`); otherwise such rows are frozen
  (`FrozenForever`).
- A coverage key hit can be stale, because the key does not contain the boundary (`StaleHit`). An
  analysis sees of a boundary exactly its area, the middle of its bounding box and the centres it
  samples (`SameFiguresIff`). So every analysis of the area as it stands answers the figures it would
  have answered against the boundary analysed exactly when the two boundaries share these
  (`CurrentIff`), an update of the area keeps that so exactly when the new boundary shares them with
  the old (`UpdateKeepsCurrentIff`), and it is so whenever the boundary never moved (`CacheAgrees`).
- A review of the current row that expects its version can fail, because the explanation with the note
  no longer fits its column (`ReviewOutOfRoom`). `ReviewSeesCurrentRow` has the exact condition; the
  first review always fits (`FirstReviewFits`), and a gap can change again exactly while it is not
  closed and has room for the shortest note (`ReviewableIff`).
- An open gap need not be closable: its explanation can fill up first (`GapStuck`). It can be closed
  exactly while there is room for the shortest notes of the reviews still missing (`ClosableIff`), and
  every detected gap can be closed both ways (`ClosesBothWays`).
- The second row of a review's audit entry is read again after the update and can be later than the row
  the review wrote (`AuditSkipsRow`), exactly when the gap has changed again or still can
  (`LaterAfterIff`).
- One spacing of swath does not always cover a generated plan (`OneSpacingLeavesGap`):
  `OneSpacingExactly` has the condition for the box and `GridCoverageIff` for the analysis.
- A copied plan keeps the name of its source with a suffix, so a plan whose name fills the column
  cannot be copied (`CopyOutOfRoom`); `PlanDoneIff` has the condition.
- An import answered with a stored run need not be answered with what was sent
  (`ImportAnsweredByOther`), because the checksum leaves out the code and the navigation quality and
  rounds the swath. It is exactly when these agree (`ImportAnsweredIff`).
- The `before` of an audit entry of a plan or area update is the row that was read. It is the row
  that was replaced exactly when it had the expected version (`PlanUpdateReplacesIff`,
  `LockReplacesIff`, `AreaUpdateReplacesIff`).
- The refusal of a rejection asks for four characters; the code counts bytes, and so does the model.

## Model

| member | source | states |
|---|---|---|
| Euclid.WithinIsDistance | backend/internal/geometry/coverage.go:312-314 | comparing squared lengths decides exactly the comparison of distances the program makes |
| Euclid.Triangle | backend/internal/geometry/coverage.go:312-314 | any distance that is the non-negative root of the squared distance satisfies the triangle inequality |
| Euclid.ProjectIsNearest | backend/internal/geometry/coverage.go:301-310 | the clamped projection is a point of the segment and no point of the segment is nearer |
| Euclid.NearSegmentMeaning | backend/internal/geometry/coverage.go:301-310 | a point is within r of a segment, as computed, iff some point of the segment is within r of it |
| Euclid.NearSegmentReversed | backend/internal/geometry/coverage.go:301-310 | nearness to a segment does not depend on its direction |
| Euclid.NearSegmentSplit | backend/internal/geometry/coverage.go:301-310 | nearness to a segment is nearness to either part when it is split at one of its own points |
| Rings.RingContains | backend/internal/geometry/coverage.go:266-277 | the toggling loop computes even-odd containment |
| Rings.PolygonContains | backend/internal/geometry/coverage.go:254-264 | inside the exterior ring and in none of the holes |
| Rings.RingArea | backend/internal/geometry/coverage.go:245-252 | the loop computes the signed shoelace area |
| Rings.PolygonArea | backend/internal/geometry/coverage.go:112-121 | exterior area less the areas of the holes, never negative |
| Rings.PolygonBounds | backend/internal/geometry/coverage.go:232-243 | the loop computes the tightest box around all vertices |
| Rings.SplitByChord | backend/internal/geometry/coverage.go:245-277 | any chord splits a ring: containment is the exclusive or of the two parts and signed area is their sum |
| Rings.Rotate | backend/internal/geometry/coverage.go:245-277 | containment and signed area do not depend on the starting vertex |
| Rings.RepeatClosingVertex | backend/internal/geometry/coverage.go:245-277 | repeating the first vertex at the end changes neither containment nor signed area |
| Rings.ReverseRing | backend/internal/geometry/coverage.go:245-277 | reversing a ring keeps containment and negates signed area |
| Rings.EnclosedInBox | backend/internal/geometry/coverage.go:266-277 | a point enclosed by a ring lies in any box around its vertices, half-open on the upper sides; the left side rests on the even number of crossings of a closed ring |
| Rings.ContainsInBounds | backend/internal/geometry/coverage.go:232-277 | every point a polygon contains lies in its half-open bounding box |
| RingLaws.CrossesBySide | backend/internal/geometry/coverage.go:270-271 | the ray to the right crosses an edge iff the point lies left of the edge taken upwards, on slanted edges too |
| RingLaws.TriangleEncloses | backend/internal/geometry/coverage.go:245-277 | a triangle of either direction encloses every point strictly on one side of its three sides and none on different sides, and its signed area is half its turn; by chords this fixes containment and area of every ring |
| RingLaws.AddHole | backend/internal/geometry/coverage.go:112-121 | one more hole, after any number of them, takes its inside out of the polygon and its area off, as far as there is any left |
| RingLaws.HoleByChord | backend/internal/geometry/coverage.go:254-264 | a hole along one side of a chord leaves the other side and its area |
| Coverage.CoveragePasses | backend/internal/geometry/coverage.go:279-299 | counts each track once, however many of its segments pass within half its swath |
| Coverage.ScanGrid | backend/internal/geometry/coverage.go:150-177 | the double loop counts exactly the inside, covered and overlapped cells and keeps the tightest box around the uncovered ones |
| Coverage.CalculateCoverage | backend/internal/geometry/coverage.go:133-194 | the loops answer the set-based definition of the analysis on every input, each error case included |
| CoverageLaws.Ranges | backend/internal/geometry/coverage.go:181-194 | 0 <= overlap <= coverage <= 1, gap is the complement, and the reported gap is the tight rectangle around the uncovered cells exactly when there are any |
| CoverageLaws.Monotone | backend/internal/geometry/coverage.go:150-194 | with at least as many passes everywhere, coverage and overlap do not fall, gap and severity do not rise, and the sampled cells stay the same |
| CoverageLaws.GapBoxShrinks | backend/internal/geometry/coverage.go:170-175 | with at least as many passes everywhere, the gap box lies within the old one |
| CoverageLaws.AddTrack | backend/internal/geometry/coverage.go:133-194 | adding a track anywhere in the list: an analysis that succeeded still succeeds, its ratios, severity and gap box move only one way |
| CoverageLaws.SameAssessment | backend/internal/geometry/coverage.go:279-299 | the analysis depends on the tracks only through how many of them pass each point |
| CoverageLaws.TracksPermuted | backend/internal/geometry/coverage.go:133-194 | the order of the tracks does not matter, errors included |
| CoverageLaws.DirectionIrrelevant | backend/internal/geometry/coverage.go:279-310 | flying a line the other way changes nothing in the analysis |
| CoverageLaws.ExtraVertexIrrelevant | backend/internal/geometry/coverage.go:279-310 | inserting a vertex on a flown segment changes nothing in the analysis |
| CoverageMeaning.SampledIff | backend/internal/geometry/coverage.go:145-161 | exactly the cells of the plane whose centre the boundary contains are sampled: the scanned rows and columns miss none |
| CoverageMeaning.AssessOutcome | backend/internal/geometry/coverage.go:134-180 | too large iff more than 60000 cells span the boundary, and otherwise a success iff the boundary contains the centre of some cell; all other failures are the invalid geometry |
| CoverageMeaning.PassesCount | backend/internal/geometry/coverage.go:279-299 | the passes of a point are the number of tracks that cover it |
| CoverageMeaning.FiguresCount | backend/internal/geometry/coverage.go:163-194 | coverage, overlap and gap, multiplied by the sampled cells, are the numbers of cells at least one track, at least two and no track pass; the area is that of the boundary |
| CoverageMeaning.SeverityByCells | backend/internal/constants/gap_severity.go:52-61 | a gap is critical from 12 uncovered cells in 100 on and major from 5 in 100 on |
| CoverageMeaning.RecommendedLine | backend/internal/geometry/coverage.go:316-347 | with g the gap rectangle, half a cell around the uncovered centres: the recommended line runs through the middle of g along its longer side, ends one cell beyond g on both sides, and passes every uncovered centre within half the shorter side; one fragment is filtered iff g is smaller than four cells |
| CoverageMeaning.RecommendedLineCloses | backend/internal/geometry/coverage.go:331-337 | one more track flying the recommended line with the shorter side of the gap as swath leaves no gap in the analysis |
| CoverageMeaning.NoGapMiddle | backend/internal/geometry/coverage.go:317-325 | without a gap, the gap and the line shrink to the middle of the bounding box and nothing is filtered |
| Transects.Generate | backend/internal/service/transect_plan.go:70-87 | the loops answer exactly the lines half a spacing in and one spacing apart that fall short of the far edge, and the two errors exactly when they apply; they terminate |
| Transects.FillsOnce | backend/internal/service/transect_plan.go:75-84 | only one number of lines fills a box |
| Transects.BoxCoverage | backend/internal/service/transect_plan.go:75-84 | a track flying the lines covers every point of the box iff half its swath reaches half a spacing and the strip past the last line |
| Transects.TailWidth | backend/internal/service/transect_plan.go:77-83 | the strip past the last line, from the whole spacings in the span and the remainder |
| Transects.PlanCovers | backend/internal/service/transect_plan.go:70-84 | if one track flies the generated lines and half its swath reaches half a spacing and the far edge, every successful analysis at any resolution reports coverage 1, gap 0 and no fragments |
| Transects.TwoSpacingsSuffice | backend/internal/service/transect_plan.go:70-84 | a swath of two spacings always gives full coverage |
| Transects.OneSpacingSuffices | backend/internal/service/transect_plan.go:70-84 | a swath of one spacing gives full coverage when the span is a whole number of spacings or leaves more than half of one |
| Transects.OneSpacingExactly | backend/internal/geometry/coverage.go:279-310 | for the box, that condition is also necessary |
| Transects.GridCoverageIff | backend/internal/geometry/coverage.go:133-194 | in the analysis: flown alone with a swath of at least a spacing, the lines leave no gap iff no sampled centre lies further than half the swath past the last line |
| Transects.GeneratedPlanCovers | backend/internal/service/transect_plan.go:70-84 | from generation to analysis: lines answered by generation and flown exactly by one track, with two spacings of swath or one in the stated cases, give full coverage in every successful analysis |
| Transects.GenerationOutcome | backend/internal/service/transect_plan.go:70-87 | there is one answer; the spacing is refused iff it exceeds both extents, and nothing fits iff half a spacing reaches across |
| Transects.LinesByHeading | backend/internal/service/transect_plan.go:75-84 | from 45 up to 135 and from 225 up to 315 degrees the lines run level from side to side, at all other headings upright |
| Transects.OppositeHeading | backend/internal/service/transect_plan.go:75 | a heading turned by 180 degrees generates the same answer |
| Transects.QuarterTurn | backend/internal/service/transect_plan.go:75-84 | a heading turned by 90 degrees generates lines of the other orientation |
| Transects.LinesApart | backend/internal/service/transect_plan.go:77-81 | the first line lies half a spacing in, each next one a spacing further, and one more would not lie inside |
| Overlap.BoxMissesNone | backend/internal/geometry/replay.go:276-290 | the floor bounding box of a stamp contains every cell whose centre is within the radius |
| Overlap.VisitsMeaning | backend/internal/geometry/replay.go:276-294 | the visit list of a cell is strictly increasing and holds exactly the samples within radius of its centre |
| Overlap.TouchedMeaning | backend/internal/geometry/replay.go:276-294 | a cell is covered iff its visit list is not empty |
| Overlap.Stamp | backend/internal/geometry/replay.go:276-291 | one stamp appends the sample to exactly the cells it reaches, with as many cell tests as its bounding box has cells |
| Overlap.BuildIndex | backend/internal/geometry/replay.go:275-294 | the stamped map equals its brute-force definition, and its number of cell tests is the sum over the samples |
| Overlap.CountBatches | backend/internal/geometry/replay.go:300-305 | the loop counts the batches of a visit list |
| Overlap.CountRepeats | backend/internal/geometry/replay.go:295-309 | the count of cells with two batches or more does not depend on the order in which the map is visited |
| Overlap.MarkOverlap | backend/internal/geometry/replay.go:268-319 | covered and overlap cells are counted, and exactly the samples whose own cell was visited more than a window earlier gain the overlap flag; the size guard is an error |
| OverlapLaws.ConnectedIffSameBatch | backend/internal/geometry/replay.go:300-305 | two visits share a batch iff they are connected by steps of at most the window |
| OverlapLaws.BatchesNumbered | backend/internal/geometry/replay.go:300-305 | batches are numbered without a hole, so their count is the number of connected components |
| OverlapLaws.WiderWindowFewerBatches | backend/internal/geometry/replay.go:300-305 | a wider window never gives more batches |
| OverlapLaws.WiderWindowFewerOverlaps | backend/internal/geometry/replay.go:295-318 | overlap cells and overlap flags both shrink as the window grows |
| OverlapLaws.FlagMeaning | backend/internal/geometry/replay.go:310-318 | a sample is flagged iff a sample more than a window earlier reached the cell it lies in |
| OverlapLaws.FlagByFirstVisit | backend/internal/geometry/replay.go:310-318 | a sample is flagged iff the first visit of its own cell is more than a window earlier |
| OverlapLaws.FlagsUpwardClosed | backend/internal/geometry/replay.go:310-318 | within a cell, samples after a flagged one are flagged |
| OverlapLaws.SecondBatchFlagged | backend/internal/geometry/replay.go:295-318 | a sample visiting its own cell in a second or later batch is always flagged |
| OverlapLaws.CellRepeatedIff | backend/internal/geometry/replay.go:295-309 | a cell is an overlap cell iff two samples more than a window apart reach it and no sample between them does |
| OverlapLaws.FlaggedOnReturn | backend/internal/geometry/replay.go:295-318 | a sample that reaches its own cell with no visitor within the window before it is flagged iff the cell was visited before, and then the cell is an overlap cell |
| OverlapLaws.FlaggedInOneBatch | backend/internal/geometry/replay.go:295-318 | five samples in one spot with window 3: the last is flagged though its cell has one batch only |
| OverlapLaws.StampBound | backend/internal/geometry/replay.go:276-291 | one stamp tests fewer than (2R + 2) squared cells, R being radius over resolution |
| OverlapLaws.TotalBound | backend/internal/geometry/replay.go:292-294 | all stamps together test at most the number of samples times that bound |
| OverlapLaws.RasterBound | backend/internal/geometry/replay.go:268-294 | once the sample limit and the grid guard pass, fewer than 3.1 million cells are tested |
| OverlapLaws.CellAround | backend/internal/geometry/replay.go:284-311 | the cell of a sample is the one whose centre is within half a resolution along each axis |
| OverlapLaws.ReachesIff | backend/internal/geometry/replay.go:284-285 | a sample reaches a cell iff the distance from the centre of the cell is at most the radius |
| OverlapLaws.ReachesOwnCell | backend/internal/geometry/replay.go:284-311 | with a radius of half a cell diagonal every sample reaches its own cell |
| OverlapLaws.GuardIff | backend/internal/geometry/replay.go:270-273 | the guard refuses iff a swath circle is larger than 5000 cells or all circles together than two million |
| OrderStats.SortKeeps | backend/internal/geometry/replay.go:239-239 | sorting orders the values and keeps them all |
| OrderStats.MedianIsMiddle | backend/internal/geometry/replay.go:239-244 | at most half of the values are above the median and at most half below, for odd and for even counts |
| OrderStats.MedianOfSorted | backend/internal/geometry/replay.go:239-244 | of any sorted order of the values the median is the middle one, or equally far from the two middle ones |
| OrderStats.MedianNegated | backend/internal/geometry/replay.go:239-244 | negating all values negates the median: it prefers neither the lower nor the upper middle value |
| Replay.FlattenSamples | backend/internal/geometry/replay.go:218-226 | all vertices in order, each marked if it starts a line |
| Replay.CountSamples | backend/internal/geometry/replay.go:70-76 | the count of the flattened samples |
| Replay.FirstOutsideBoundary | backend/internal/geometry/replay.go:97-108 | the index and point of the first sample, in flattened order, that the boundary does not contain, if there is one |
| Replay.MedianSpacing | backend/internal/geometry/replay.go:228-245 | the median of the spacings within lines |
| Replay.TrackLength | backend/internal/geometry/coverage.go:123-131 | the summed lengths of the segments within lines |
| Replay.WalkSamples | backend/internal/geometry/replay.go:152-173 | frames, dropout flags, the list of gaps and the dropped points after the in-place pass |
| Replay.MarkAccuracy | backend/internal/geometry/replay.go:247-266 | accuracies, flags, number of anomalies and maximum after the in-place pass |
| Replay.BuildReplay | backend/internal/geometry/replay.go:129-200 | the passes together answer the declarative definition of frames and summary on every input, each error case included |
| ReplayLaws.DropoutLimit | backend/internal/geometry/replay.go:146-171 | with a factor of at least 1, dropouts number at most half of the in-line spacings plus the non-empty lines less one |
| ReplayLaws.MissingEstimate | backend/internal/geometry/replay.go:159-166 | with median > 0 and factor >= 1.5 every dropout misses at least one sample, so the clamp at zero never acts, and the gap is within half a median of (missing + 1) medians |
| ReplayLaws.DroppedWithinTrack | backend/internal/geometry/replay.go:152-173 | dropped points and events, in medians and half medians, never exceed the last cumulative distance |
| ReplayLaws.CumulativeDominates | backend/internal/geometry/replay.go:154-173 | cumulative distance never falls and between any two frames grows by at least their straight-line distance |
| ReplayLaws.CumulativeTotal | backend/internal/geometry/replay.go:154-173 | the last cumulative distance is the track length plus the jumps between lines |
| ReplayLaws.DropoutFramesMatchGaps | backend/internal/geometry/replay.go:167-169 | frames flagged as dropouts are exactly those right after a listed gap |
| ReplayLaws.AccuracyFramesCounted | backend/internal/geometry/replay.go:260-263 | accuracy flags number the reported anomalies and mark exactly the frames over the threshold |
| ReplayLaws.OverlapFramesMean | backend/internal/geometry/replay.go:310-318 | a frame carries the overlap flag iff an earlier sample, more than a window back, swept its cell |
| ReplayLaws.AccuracyBounded | backend/internal/geometry/replay.go:251-256 | accuracy is at least the base and at most the base plus the smaller distance to the two neighbours |
| ReplayMeaning.FramesFollowLines | backend/internal/geometry/replay.go:155-172 | frame by frame, the positions are the vertices of all lines in the order flown |
| ReplayMeaning.FlagsInOrder | backend/internal/geometry/replay.go:179-187 | the flags of a frame are listed once each, dropouts first and overlaps last |
| ReplayMeaning.SpacingsAreSteps | backend/internal/geometry/replay.go:228-235 | the spacings are the distances between consecutive vertices of each line, line after line |
| ReplayMeaning.DropoutIff | backend/internal/geometry/replay.go:155-171 | a frame is flagged as dropout iff its distance from the frame before, which is what the cumulative distance grows by, is positive and exceeds the factor times the median of the distances within lines, whether or not a line starts there |
| ReplayMeaning.GapsListed | backend/internal/geometry/replay.go:159-169 | the gaps listed are those before the flagged frames, in order, each with its distance and an estimate off by no more than half a median, halves rounded up |
| ReplayMeaning.DroppedPointsEstimate | backend/internal/geometry/replay.go:160-168 | the dropped points, with one spacing for each gap, account for the length of all gaps up to half a median for each |
| ReplayMeaning.AccuracyIs | backend/internal/geometry/replay.go:247-265 | between the ends of a line the accuracy is the base plus the distance from the segment between the two neighbours, at the ends the base |
| ReplayMeaning.SummaryMeans | backend/internal/geometry/replay.go:188-198 | the summary holds the count, the minutes, the greatest accuracy of any frame, and the share of the reached cells that are reached again |
| ReplayMeaning.ReplayOutcome | backend/internal/geometry/replay.go:130-145 | a replay fails iff there is nothing to replay, there are more than 5000 vertices, or the swath circles are too large, each with its own error |
| Limiter.RateLimiter.Allow | backend/internal/middleware/audit.go:46-65 | the count, the entry kept and the eviction for any clock reading; while no call is more than a window behind an earlier one, the answer is that of a limiter that never evicts |
| Limiter.RateLimiter.Evict | backend/internal/middleware/audit.go:57-63 | exactly the entries that started more than two windows ago go, and no other changes |
| Limiter.OrderedIsTolerable | backend/internal/middleware/audit.go:48-50 | calls in order of time are calls without lag |
| Limiter.UnevictedEntry | backend/internal/middleware/audit.go:51-56 | the entry of a key counts its requests since its current window opened, in whatever order the clock readings arrive |
| Limiter.WindowAdmits | backend/internal/middleware/audit.go:51-64 | a window admits exactly the smaller of the capacity and the requests it receives |
| Limiter.SlidingBound | backend/internal/middleware/audit.go:51-64 | any half-open interval of one window length sees at most twice the capacity admitted when times lag by at most one tick, and otherwise, for a lag of up to a window, at most three times the capacity less two when that is more |
| Limiter.LaggingBound | backend/internal/middleware/audit.go:46-65 | the same bound for each key over every recorded history whose calls lag by up to a window, whatever other keys do and whatever is evicted |
| Limiter.LagBoundMet | backend/internal/middleware/audit.go:46-65 | no smaller bound holds: for every capacity and every window of at least two ticks a history with a lag of two ticks reaches three times the capacity less two |
| Limiter.NeverMoreThanTwice | backend/internal/middleware/audit.go:46-65 | for histories in order of time the bound is twice the capacity |
| Services.UniqueIdList | backend/internal/service/coverage_gap.go:144-154 | the loop over the seen set keeps the first occurrence of each identifier |
| Text.FirstNoteFits | backend/internal/service/coverage_gap.go:102-129 | the printed figures of any analysis leave room for a first note of any accepted length |
| Text.DigitsRead | backend/internal/service/coverage_gap.go:102 | reading a printed number gives it back, and it has no leading zero |
| Text.DecimalReads | backend/internal/service/coverage_gap.go:102 | a number printed with one decimal reads as one no further off than half a tenth |
| Text.RoundsHalfToEven | backend/internal/service/coverage_gap.go:102 | exact halves are printed as the even neighbour |
| Text.AnalysedSays | backend/internal/service/coverage_gap.go:102 | the explanation names the resolution, the cells and the fragments, each in its place |
| Services.CheckGeometry | backend/internal/service/survey_area.go:99-111 | accepts fields iff the coordinate system is projected by name and the boundary is a polygon of positive area within the limit, with the failure of the first check that does not pass |
| Services.FirstMisfit | backend/internal/service/coverage_gap.go:67-73 | the run that stops a detection is the first one listed that does not fit |
| Invariant.UniqueIdsMeaning | backend/internal/service/coverage_gap.go:144-154 | no repetition, and the same members |
| Invariant.ListingIsPermutation | backend/internal/service/coverage_gap.go:58-64 | when the counts agree, the rows found are a permutation of the distinct identifiers asked for |
| Invariant.ThreadStays | backend/internal/service/coverage_gap.go:113-137 | what a request has read and checked stays an earlier state of its row, whatever other requests do |
| Invariant.ChecksumsDetermineTracks | backend/internal/geometry/coverage.go:196-208 | with unique checksums, equal sorted checksum lists mean the same tracks up to order |
| Preservation.MoveRunKeeps | backend/internal/repository/sonar_run.go:68-77 | a conditional change of a run state after the service guards keeps every invariant |
| Preservation.MoveGapKeeps | backend/internal/repository/coverage_gap.go:62-71 | a conditional review update keeps every invariant and moves the gap forward from the very row that was read |
| Preservation.StoreGapKeeps | backend/internal/service/coverage_gap.go:91-105 | what a detection stores agrees with its source runs in whatever order they were listed |
| Preservation.StoreReplayKeeps | backend/internal/service/run_replay.go:98-122 | what a replay stores agrees with its run as it then stands |
| Preservation.AdvanceKeeps | backend/internal/service/coverage_gap.go:47-137 | one step of any request, in any database state that satisfies the invariants, keeps them all and only evolves rows |
| Preservation.BeginOk | backend/internal/service/transect_plan.go:95-131 | what every request knows after its first read and checks holds |
| Preservation.ApplyOk | backend/internal/service/sonar_run.go:43-120 | any event keeps the invariants of the database and of every other request in flight |
| Preservation.Reachable | backend/internal/service/coverage_gap.go:47-137 | every state reachable by any interleaving satisfies the invariants |
| Preservation.RunEvolution | backend/internal/repository/coverage_gap.go:62-71 | between any two moments of a run rows are never deleted and only evolve: versions grow with every change, states move forward, locked plans stay locked, explanations keep their beginning |
| Versions.FailureStoresNothing | backend/internal/service/run_replay.go:49-117 | a step that fails stores nothing |
| Versions.WinRaisesVersion | backend/internal/repository/transect_plan.go:51-72 | an event raises the version of a row by exactly one iff it is a successful update of it, and then the version it named was the current one |
| Versions.VersionCountsWins | backend/internal/repository/survey_area.go:50-60 | after any events the version of a row is what it was plus the number of successful updates of it |
| Versions.OneWinnerPerVersion | backend/internal/repository/coverage_gap.go:62-71 | two successful updates of one row never name the same version: later ones name larger ones |
| Versions.RunMoveSeesCurrentRow | backend/internal/service/sonar_run.go:90-115 | a pending run transition succeeds iff the run is still the row that was read and the expected version is its version |
| Reviews.ReviewSeesCurrentRow | backend/internal/service/coverage_gap.go:113-137 | no ABA: a pending review succeeds iff the gap is still, field by field, the row it read, the expected version is its version, and the explanation with the note fits its column; it then changes that row only, and a failed one changes nothing |
| Reviews.FirstReviewFits | backend/internal/service/coverage_gap.go:102-130 | the first review of a gap never lacks room, whatever note the request binding accepts |
| Reviews.ReviewableIff | backend/internal/model/coverage_gap.go:21 | a gap can still change in some continuation iff it is not closed and its column has room for the shortest note |
| Reviews.ExplanationOnlyAppends | backend/internal/service/coverage_gap.go:129-130 | over any events an explanation gains exactly the notes of the successful reviews, in order, and keeps all it had |
| Reviews.AuditsRecordPredecessors | backend/internal/service/coverage_gap.go:130-136 | every audit entry holds the exact row one successful review replaced, that review having expected its version, and as its second row the row written (state moved, note appended, version one higher) or a later state of it |
| Reviews.LaterAfterIff | backend/internal/repository/coverage_gap.go:62-71 | the audit of a review can end up with a later row than the one written iff the gap has already changed again or still can |
| Reviews.ClosedGapHistory | backend/internal/constants/gap_severity.go:21-28 | a closed gap has version 4 iff it was once a false positive and version 5 iff it was once resurveyed, and no other version |
| Transitions.ReviewDoneIff | backend/internal/service/coverage_gap.go:113-130 | a review served alone is done iff the gap has the expected version, its state and the target are one of the six steps written out, and the note is of 8 to 600 characters and fits |
| Transitions.RunDoneIff | backend/internal/service/sonar_run.go:90-112 | a run transition served alone is done iff the run has the expected version, its state and the target are one of the seven steps written out, invalid navigation does not pass the check, and a rejection has a reason of four bytes |
| Transitions.ClosableIff | backend/internal/constants/gap_severity.go:21-28 | a gap can be closed in some continuation iff its explanation has room for the shortest notes of the reviews still missing |
| Transitions.ClosesBothWays | backend/internal/constants/gap_severity.go:21-28 | every detected gap can be closed at version 4 in some continuation and at version 5 in some other |
| Transitions.RunPaths | backend/internal/constants/run_state.go:16-23 | every imported run can be rejected, and unless its navigation is invalid it can be processed at version 4, superseded at 5, and rejected at 3 and at 4 |
| Locking.LockedForever | backend/internal/repository/transect_plan.go:63-72 | over any interleaving a locked plan stays locked |
| Locking.RunsFlyLockedPlans | backend/internal/service/sonar_run.go:44-66 | in every reachable state the plan of every run is locked |
| Locking.PlanUpdateReplacesIff | backend/internal/service/transect_plan.go:95-110 | a waiting plan update succeeds iff the plan has the expected version, and the row it read, the `before` of its audit entry, is then the one it replaces iff it had that version |
| Locking.LockReplacesIff | backend/internal/service/transect_plan.go:116-128 | the same for locking, which also needs the plan to be a draft |
| Locking.AreaUpdateReplacesIff | backend/internal/service/survey_area.go:75-93 | the same for area updates |
| Locking.FrozenForever | backend/internal/service/transect_plan.go:95-131 | if no update expects a version beyond the one at its own read, locked plans and archived areas keep every field over any interleaving |
| Locking.LockedOverwriteIff | backend/internal/repository/transect_plan.go:51-61 | a waiting plan update can end up overwriting the plan locked iff it expects a version the draft has not reached yet |
| Locking.ArchivedOverwriteIff | backend/internal/service/survey_area.go:75-96 | a waiting area update can end up overwriting the area archived iff it expects a version the area has not reached yet |
| Snapshots.RunVersionByState | backend/internal/constants/run_state.go:16-23 | the version of an imported run is fixed by its state, 2 to 4 when rejected, and invalid navigation is only ever imported or rejected |
| Snapshots.RepeatedImportFound | backend/internal/service/sonar_run.go:58-66 | importing a stored checksum again answers the stored run and stores nothing |
| Snapshots.SameChecksumIff | backend/internal/service/sonar_run.go:122-127 | two imports with one checksum have the same track, plan and times and swaths a millimetre apart at most; they are the same import iff code, navigation quality and swath agree |
| Snapshots.ImportAnsweredIff | backend/internal/service/sonar_run.go:58-66 | over any interleaving, an import answered with a stored run is answered with what was sent iff code, navigation quality and swath agree |
| Snapshots.SourcesStayUsable | backend/internal/service/coverage_gap.go:67-103 | the source runs of a gap stay processed or superseded forever, with the tracks and checksums that were analysed |
| BoundaryLaws.SameFiguresIff | backend/internal/geometry/coverage.go:133-194 | two boundaries give the same figures for every set of tracks iff both can be analysed and they have the same area, the same middle of the bounding box and the same sampled centres |
| Snapshots.HitAgrees | backend/internal/service/coverage_gap.go:85-90 | on a key hit, the stored figures and severity are those of a fresh calculation against any boundary that gives the same figures as the one analysed, for any order of the runs |
| Snapshots.CurrentIff | backend/internal/service/coverage_gap.go:85-96 | every analysis of the area as it stands answers what it would have answered against the boundary a stored gap was analysed with iff the area now has the same area, middle and sampled centres |
| Snapshots.CurrentFigures | backend/internal/service/coverage_gap.go:85-105 | figures that are current are what a fresh analysis of the source runs over the area as it stands answers |
| Snapshots.UpdateKeepsCurrentIff | backend/internal/service/survey_area.go:89-92 | for every stored gap of the area with current figures: after an update every analysis, of whatever tracks, still answers the same figures iff the new boundary can be analysed and has the same area, middle and sampled centres as the old |
| Snapshots.AnalysedWasCurrent | backend/internal/service/coverage_gap.go:91-96 | the boundary a stored gap was analysed against was the boundary of its area at some moment of the run |
| Snapshots.CacheAgrees | backend/internal/service/coverage_gap.go:85-90 | over any interleaving a key hit answers that gap and stores nothing, and the figures equal a fresh calculation over the area as it stands if they are current, in particular whenever the boundary never moved, however often the area was updated |
| Snapshots.ReplayAgrees | backend/internal/service/run_replay.go:56-117 | every stored replay is what its run answers in every reachable state; the run is processed or superseded and the base accuracy is 1.5 or 6.0 |
| Snapshots.ReplayKeyDecides | backend/internal/geometry/replay.go:111-123 | equal checksum and parameters give equal frames and summary, whatever sample count was declared |
| Snapshots.DuplicateReplayAgrees | backend/internal/service/run_replay.go:91-98 | a replay refused as a duplicate would have computed the stored snapshot |
| Snapshots.StoredReplaysMeetLimits | backend/internal/service/run_replay.go:91-117 | every stored replay meets the dropout limit and the bound of dropped points by distance |
| Detections.TrackIsRun | backend/internal/service/coverage_gap.go:74-79 | the analysed track covers a point iff some segment of some line of the run passes within half the swath of the run |
| Detections.RequestedPasses | backend/internal/service/coverage_gap.go:58-80 | the passes a detection counts at a point are the distinct requested runs with such a segment |
| Detections.WaitingPasses | backend/internal/service/coverage_gap.go:65-96 | over any interleaving, the tracks a waiting detection holds count the runs as they are stored |
| Detections.StoredFiguresFlown | backend/internal/service/coverage_gap.go:91-105 | in every reachable state the coverage of a stored gap is the share of sampled cells that one source run passed, its overlap the share two passed, its gap the share none passed, and its severity goes by that share |
| Detections.PolygonHasExtent | backend/internal/geometry/coverage.go:140-144 | a polygon of positive area has a width and a height, so a stored boundary is never refused for having none |
| Detections.PolygonOutcome | backend/internal/geometry/coverage.go:133-180 | the analysis of a stored boundary succeeds iff at most 60000 cells span it and it contains the centre of one |
| Counterexamples.StaleHit | backend/internal/geometry/coverage.go:196-208 | a run from the empty database whose last detection answers a stored gap with coverage 1, although a fresh calculation over the area as it stands gives 0 |
| Counterexamples.AuditSkipsRow | backend/internal/repository/coverage_gap.go:62-71 | a run at whose end an audit entry skips a row: its second row is two versions above its first |
| Counterexamples.ReviewOutOfRoom | backend/internal/model/coverage_gap.go:21 | a run at whose end a review of the current row, expecting its version, fails for lack of room |
| Counterexamples.GapStuck | backend/internal/model/coverage_gap.go:21 | a run after which a gap is accepted and no continuation ever closes it |
| Counterexamples.ArchivedAreaOverwritten | backend/internal/service/survey_area.go:75-92 | a run from the empty database whose last event changes an archived area |
| Counterexamples.OneSpacingLeavesGap | backend/internal/service/transect_plan.go:70-84 | a generated line, flown exactly with a swath of its spacing, whose analysis reports a gap |
| Counterexamples.CopyOutOfRoom | backend/internal/repository/transect_plan.go:74-87 | a run from the empty database at whose end an accepted plan cannot be copied |
| Counterexamples.ImportAnsweredByOther | backend/internal/service/sonar_run.go:122-127 | a run whose last import, with degraded navigation, is answered with a stored run of good navigation |
| Counterexamples.LockedPlanOverwritten | backend/internal/service/transect_plan.go:95-109 | a run from the empty database whose last event changes a locked plan |
| Serving.ServedKeeps | backend/internal/service/coverage_gap.go:47-137 | serving any request without interruption keeps the invariants and only evolves rows |
| Serving.ServedIsRun | backend/internal/service/coverage_gap.go:47-137 | serving a request without interruption is one of the interleavings of the protocol, whatever else is waiting |
| Promises.ServedDecides | backend/internal/service/coverage_gap.go:47-137 | served without interruption, a request is done iff it is acceptable in the state it finds, in the terms of its caller, and otherwise changes nothing |
| Promises.DetectDecides | backend/internal/service/coverage_gap.go:47-105 | a detection is done iff all its runs exist, fit the area and are processed, its key is new and the analysis of the distinct runs succeeds, in whatever order they are listed |
| Promises.ReplayDecides | backend/internal/service/run_replay.go:51-122 | a replay is done iff its run is processed, its samples are as many as claimed and all inside, its key is new and the frames can be built |
| Requirements.ProjectedIff | backend/internal/geometry/coverage.go:47-56 | a name is projected iff it is not empty and none of the three parts occurs anywhere in it |
| Requirements.AreaDoneIff | backend/internal/service/survey_area.go:61-92 | when a new area and an update of one are done, in terms of the fields and rows |
| Requirements.PlanDoneIff | backend/internal/service/transect_plan.go:40-140 | when a new plan, an update, a lock and a copy are done, in terms of the fields and rows |
| Requirements.ImportDoneIff | backend/internal/service/sonar_run.go:43-74 | when an import is done: a locked plan, lines of two positions, an end after the start, a code and a source not yet stored |
| Requirements.DetectDoneIff | backend/internal/service/coverage_gap.go:47-105 | a detection is done iff every requested run exists, is processed and flew a plan of the area, no gap has the key, and at most 60000 cells span the boundary, which contains the centre of one |
| Requirements.ReplayDoneIff | backend/internal/service/run_replay.go:51-122 | a replay is done iff its run is processed, its vertices are as many as claimed and all inside, no replay of the source has these parameters, requested or default, and vertices and cells are few enough |
| Requirements.ReplayOfStored | backend/internal/service/run_replay.go:98-101 | a replay of a stored run fails for its size only |
| Effects.ServedEffect | backend/internal/service/coverage_gap.go:91-137 | a request served alone and done has written exactly the row that it should hold, every field included, and no other |
| Effects.CopyCanBeEdited | backend/internal/repository/transect_plan.go:74-87 | a copy, of a locked plan too, is a draft over the same lines that can be edited and locked at once, and its source stays |
| Failures.FailureTells | backend/internal/service/coverage_gap.go:47-137 | a request served alone that fails tells the truth: each failure names something that is so of the request and the rows |
| Failures.ExistingTells | backend/internal/service/sonar_run.go:58-66 | a request served alone is answered with a stored row only if it is an import of the source of that run or a detection with the key of that gap |
| Store.Database.ByIds | backend/internal/repository/sonar_run.go:45-51 | each existing row asked for once, in an order the caller cannot rely on |
| Store.Database.CollectRuns | backend/internal/service/coverage_gap.go:65-80 | collects tracks and checksums in listed order, or the failure of the first run that does not fit |
| Store.Database.Detect | backend/internal/service/coverage_gap.go:47-111 | lists, checks, looks up the key, calculates and inserts as the protocol does when nothing comes in between, for whatever order the rows are listed in |
| Store.Database.AnalyseAndStore | backend/internal/service/coverage_gap.go:91-105 | inserts the row of a successful calculation, or reports which step failed and changes nothing |
| Store.Database.CheckReplay | backend/internal/service/run_replay.go:51-92 | the staged checks in order, each with its own failure, or the key with all defaults filled in |
| Store.Database.CreateReplay | backend/internal/service/run_replay.go:51-122 | checks, looks up the key, builds and inserts as the protocol does when nothing comes in between |
| Store.Database.Handle | backend/internal/service/coverage_gap.go:47-137 | any request over the mutable tables: done exactly when it is acceptable in the state it finds, then exactly the right row written, otherwise nothing changed and the failure or the row answered true of what was found, and every invariant of the reachable states kept |

## Left out

- HTTP handlers, routing, authentication, roles, configuration, seeding and logging. The seeded run is
  processed at version 1, so the exact version theorems are about rows created through the services.
- SQL and the object mapper: a table is a map with atomic conditional updates, unique keys and column
  limits; one repository call, preloads included, is one step. The other supported database enforces no
  column limits. When a text is too long and no row matches, the model answers the version conflict.
- GeoJSON and JSON: polygons and lines are parsed values, and whether a track's text and its lines
  agree is up to the parser.
- SHA-256 itself.
- Floating point: rounding, NaN, infinities and the finiteness tests.
- Wall-clock columns, processing times, and the creator of a record.
- List queries, area summaries, the quality evidence of a run, and the web frontend.
- Trimming and upper-casing of codes, names and coordinate systems, which arrive in that form, and the
  upper limit on the length of a rejection reason.
- The stored gap area, which is the product of the area and the gap ratio that the model keeps apart.
- Audit entries other than those of gap reviews, as rows, and the read-back that follows other updates.
- Unsigned wrap-around of versions and identifiers.
- Limiter.RateLimiter.Allow: takes the current time as an argument after the zero instant.
- Store.Database.Handle: serves one request at a time; interleavings are the subject of the protocol modules.
