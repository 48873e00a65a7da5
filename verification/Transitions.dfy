/** The transition tables at work: which moves are accepted, state by state, and which ends a gap and
    a run can still reach. */
module Transitions {
  import opened Euclid
  import opened States
  import opened Records
  import opened Services
  import opened Invariant
  import opened Preservation
  import opened Runs
  import opened Serving
  import opened Promises
  import opened Reviews
  import opened Text
  import opened Versions

  // ----- what is accepted, pair by pair

  /** The six steps of a review. */
  const REVIEW_STEPS: set<(GapState, GapState)> := {
    (Detected, GapState.Reviewed), (GapState.Reviewed, Accepted), (GapState.Reviewed, FalsePositive),
    (Accepted, Resurveyed), (FalsePositive, Closed), (Resurveyed, Closed)}

  /** The seven steps of a run. */
  const RUN_STEPS: set<(RunState, RunState)> := {
    (Imported, QualityChecked), (QualityChecked, Processing), (Processing, Processed), (Processed, Superseded),
    (Imported, RunState.Rejected), (QualityChecked, RunState.Rejected), (Processing, RunState.Rejected)}

  lemma ReviewPairs(a: GapState, b: GapState)
    ensures a.CanTransition(b) <==> (a, b) in REVIEW_STEPS
  {
  }

  lemma RunPairs(a: RunState, b: RunState)
    ensures a.CanTransition(b) <==> (a, b) in RUN_STEPS
  {
  }

  /** A review served alone is done exactly when the gap exists in the expected version, its state and
      the target are one of the six steps, and the note is long enough, short enough, and fits. */
  lemma ReviewDoneIff(hypot: Hypot, a: DB, id: nat, expected: nat, target: GapState, note: string, b: DB, outcome: Outcome)
    requires DbOk(hypot, a) && Served(hypot, a, ReviewRequest(id, expected, target, note), b, outcome)
    ensures outcome == Done <==>
              && id in a.gaps && a.gaps[id].version == expected && (a.gaps[id].state, target) in REVIEW_STEPS
              && 8 <= |note| <= 600 && |a.gaps[id].explanation| + 6 + |note| <= 1200
  {
    hide Served, DbOk, Accepts;
    ServedDecides(hypot, a, ReviewRequest(id, expected, target, note), b, outcome);
    if id in a.gaps {
      GapExpects(hypot, a, id);
    }
    AcceptsReview(hypot, a, id, expected, target, note);
  }

  lemma AcceptsReview(hypot: Hypot, a: DB, id: nat, expected: nat, target: GapState, note: string)
    requires id in a.gaps ==> a.gaps[id].version > 0
    ensures Accepts(hypot, a, ReviewRequest(id, expected, target, note)) <==>
              && id in a.gaps && a.gaps[id].version == expected && (a.gaps[id].state, target) in REVIEW_STEPS
              && 8 <= |note| <= 600 && |a.gaps[id].explanation| + 6 + |note| <= 1200
  {
    if id in a.gaps {
      ReviewPairs(a.gaps[id].state, target);
      NoteLength(a.gaps[id].explanation, note);
      hide WithNote;
    }
  }

  lemma GapExpects(hypot: Hypot, db: DB, id: nat)
    requires DbOk(hypot, db) && id in db.gaps
    ensures db.gaps[id].version > 0 && |db.gaps[id].explanation| <= MAX_EXPLANATION
  {
    hide KeysOk, RunsOk, ReplaysOk, SnapshotOk;
    assert GapOk(db, db.gaps[id]);
  }

  lemma RunExpects(hypot: Hypot, db: DB, id: nat)
    requires DbOk(hypot, db) && id in db.runs
    ensures db.runs[id].version > 0
  {
    hide KeysOk, GapsOk, ReplaysOk;
    assert RunOk(db, db.runs[id]);
  }

  /** A run transition served alone is done exactly when the run exists in the expected version, its
      state and the target are one of the seven steps, invalid navigation does not pass the quality
      check, and a rejection has a reason of four bytes. */
  lemma RunDoneIff(hypot: Hypot, a: DB, id: nat, expected: nat, target: RunState, reason: seq<bv8>, b: DB, outcome: Outcome)
    requires DbOk(hypot, a) && Served(hypot, a, MoveRunRequest(id, expected, target, reason), b, outcome)
    ensures outcome == Done <==>
              && id in a.runs && a.runs[id].version == expected && (a.runs[id].state, target) in RUN_STEPS
              && !(target == QualityChecked && a.runs[id].data.navigation == Invalid)
              && !(target == RunState.Rejected && |reason| < 4)
  {
    hide Served, DbOk, Accepts;
    ServedDecides(hypot, a, MoveRunRequest(id, expected, target, reason), b, outcome);
    if id in a.runs {
      RunExpects(hypot, a, id);
    }
    AcceptsMove(hypot, a, id, expected, target, reason);
  }

  lemma AcceptsMove(hypot: Hypot, a: DB, id: nat, expected: nat, target: RunState, reason: seq<bv8>)
    requires id in a.runs ==> a.runs[id].version > 0
    ensures Accepts(hypot, a, MoveRunRequest(id, expected, target, reason)) <==>
              && id in a.runs && a.runs[id].version == expected && (a.runs[id].state, target) in RUN_STEPS
              && !(target == QualityChecked && a.runs[id].data.navigation == Invalid)
              && !(target == RunState.Rejected && |reason| < 4)
  {
    if id in a.runs {
      RunPairs(a.runs[id].state, target);
    }
  }

  // ----- how a gap can be closed

  /** After these events the gap is closed. */
  ghost predicate Closes(hypot: Hypot, s: System, rest: seq<Event>, id: nat) {
    id in Exec(hypot, s, rest).db.gaps && Exec(hypot, s, rest).db.gaps[id].state == Closed
  }

  ghost predicate ClosesIn(hypot: Hypot, s: System, rest: seq<Event>, id: nat, version: nat) {
    Closes(hypot, s, rest, id) && Exec(hypot, s, rest).db.gaps[id].version == version
  }

  /** The reviews that are missing to close a gap, along the shortest way. */
  function ReviewsMissing(state: GapState): nat {
    match state
    case Detected => 3
    case Reviewed => 2
    case Accepted => 2
    case FalsePositive => 1
    case Resurveyed => 1
    case Closed => 0
  }

  /** The column has room for the shortest notes of the reviews still missing. */
  predicate Closable(row: GapRow) {
    |row.explanation| + 14 * ReviewsMissing(row.state) <= 1200
  }

  lemma MissingStep(row: GapRow, target: GapState, note: string)
    requires row.state.CanTransition(target) && |note| >= MIN_NOTE
    ensures var now := ReviewedRow(row, target, note);
            |row.explanation| + 14 * ReviewsMissing(row.state) <= |now.explanation| + 14 * ReviewsMissing(now.state)
  {
    NoteLength(row.explanation, note);
  }

  /** What is written and what is missing never gets less together. */
  lemma {:induction false} MissingNeverLess(hypot: Hypot, s: System, rest: seq<Event>, id: nat)
    requires SystemOk(hypot, s) && id in s.db.gaps
    ensures id in Exec(hypot, s, rest).db.gaps
    ensures var row, now := s.db.gaps[id], Exec(hypot, s, rest).db.gaps[id];
            |row.explanation| + 14 * ReviewsMissing(row.state) <= |now.explanation| + 14 * ReviewsMissing(now.state)
  {
    hide SystemOk, Apply, WinsOn, ReviewedRow, WithNote;
    if |rest| > 0 {
      var n := |rest| - 1;
      MissingNeverLess(hypot, s, rest[..n], id);
      ExecOk(hypot, s, rest[..n]);
      var mid := Exec(hypot, s, rest[..n]);
      StepReviews(hypot, mid, rest[n], id);
      if WinsOn(hypot, mid, rest[n], Gaps, id) {
        var r := mid.threads[rest[n].thread];
        MissingStep(mid.db.gaps[id], r.gapTarget, r.note);
      }
    }
  }

  /** Other requests can review the gap to a state one step away, and leave all else alone. */
  lemma Reviewing(hypot: Hypot, s: System, id: nat, target: GapState) returns (rest: seq<Event>)
    requires SystemOk(hypot, s) && id in s.db.gaps && s.db.gaps[id].state.CanTransition(target)
    requires |s.db.gaps[id].explanation| + 14 <= 1200
    ensures SystemOk(hypot, Exec(hypot, s, rest))
    ensures var later := Exec(hypot, s, rest);
            && id in later.db.gaps
            && later.db.gaps[id].state == target && later.db.gaps[id].version == s.db.gaps[id].version + 1
            && |later.db.gaps[id].explanation| == |s.db.gaps[id].explanation| + 14
  {
    hide SystemOk, Exec, Serve, WithNote;
    var u := AboveAll(s.threads.Keys);
    var row := s.db.gaps[id];
    NoteLength(row.explanation, SHORT_NOTE);
    ServeReviewTo(hypot, s, u, id, target, SHORT_NOTE);
    rest := Serve(u, ReviewRequest(id, row.version, target, SHORT_NOTE), [], 1);
    ExecOk(hypot, s, rest);
  }

  /** The way on for a gap to be closed soonest. */
  function ClosingStep(state: GapState): GapState
    requires state != Closed
  {
    match state
    case Detected => GapState.Reviewed
    case Reviewed => FalsePositive
    case Accepted => Resurveyed
    case FalsePositive => Closed
    case Resurveyed => Closed
  }

  lemma StepsCloser(state: GapState)
    requires state != Closed
    ensures state.CanTransition(ClosingStep(state)) && ReviewsMissing(ClosingStep(state)) == ReviewsMissing(state) - 1
  {
  }

  lemma {:induction false} Closing(hypot: Hypot, s: System, id: nat) returns (rest: seq<Event>)
    requires SystemOk(hypot, s) && id in s.db.gaps && Closable(s.db.gaps[id])
    ensures Closes(hypot, s, rest, id)
    ensures Exec(hypot, s, rest).db.gaps[id].version == s.db.gaps[id].version + ReviewsMissing(s.db.gaps[id].state)
    decreases ReviewsMissing(s.db.gaps[id].state)
  {
    hide SystemOk, Apply;
    var row := s.db.gaps[id];
    if row.state == Closed {
      rest := [];
    } else {
      hide Exec;
      StepsCloser(row.state);
      var first := Reviewing(hypot, s, id, ClosingStep(row.state));
      var more := Closing(hypot, Exec(hypot, s, first), id);
      ExecSplit(hypot, s, first, more);
      rest := first + more;
    }
  }

  /** A gap can still be closed if and only if its explanation has room for the shortest notes of the
      reviews still missing: three for a detected gap, two for a reviewed or accepted one, one for a
      false positive or a resurveyed one. */
  lemma ClosableIff(hypot: Hypot, s: System, id: nat)
    requires SystemOk(hypot, s) && id in s.db.gaps
    ensures (exists rest :: Closes(hypot, s, rest, id)) <==> Closable(s.db.gaps[id])
  {
    hide SystemOk, Exec;
    if Closable(s.db.gaps[id]) {
      var rest := Closing(hypot, s, id);
    }
    forall rest | Closes(hypot, s, rest, id) ensures Closable(s.db.gaps[id]) {
      MissingNeverLess(hypot, s, rest, id);
      ExecOk(hypot, s, rest);
      StoredText(hypot, Exec(hypot, s, rest), id);
    }
  }

  lemma StoredText(hypot: Hypot, s: System, id: nat)
    requires SystemOk(hypot, s) && id in s.db.gaps
    ensures |s.db.gaps[id].explanation| <= 1200 && GapVersion(s.db.gaps[id])
  {
    hide SnapshotOk, ThreadOk, RunsOk, ReplaysOk;
    assert GapOk(s.db, s.db.gaps[id]);
  }

  lemma DetectedRoom(hypot: Hypot, s: System, id: nat)
    requires SystemOk(hypot, s) && id in s.db.gaps && s.db.gaps[id].state == Detected
    ensures |s.db.gaps[id].explanation| + 56 <= 1200 && s.db.gaps[id].version == 1
  {
    hide SystemOk, Analysed, WithNote;
    StoredGapOk(hypot, s, id);
    DetectedText(s.db, s.db.gaps[id]);
    var data, note := s.db.gaps[id].data, seq(50, _ => 'x');
    FirstNoteFits(data.key.resolution, data.result.sampleCells, data.result.filteredFragments, note);
    NoteLength(s.db.gaps[id].explanation, note);
  }

  /** Every detected gap can be closed both ways: at version 4 as a false positive, and at version 5
      after a new survey. */
  lemma ClosesBothWays(hypot: Hypot, s: System, id: nat)
    requires SystemOk(hypot, s) && id in s.db.gaps && s.db.gaps[id].state == Detected
    ensures exists rest :: ClosesIn(hypot, s, rest, id, 4)
    ensures exists rest :: ClosesIn(hypot, s, rest, id, 5)
  {
    hide SystemOk, Exec;
    DetectedRoom(hypot, s, id);
    var soon := Closing(hypot, s, id);
    assert ClosesIn(hypot, s, soon, id, 4);
    var one := Reviewing(hypot, s, id, GapState.Reviewed);
    var two := Reviewing(hypot, Exec(hypot, s, one), id, Accepted);
    ExecSplit(hypot, s, one, two);
    var more := Closing(hypot, Exec(hypot, s, one + two), id);
    ExecSplit(hypot, s, one + two, more);
    assert ClosesIn(hypot, s, one + two + more, id, 5);
  }

  // ----- where a run can go

  ghost predicate ReachesState(hypot: Hypot, s: System, rest: seq<Event>, id: nat, state: RunState, version: nat) {
    var db := Exec(hypot, s, rest).db;
    id in db.runs && db.runs[id].state == state && db.runs[id].version == version
  }

  const REASON: seq<bv8> := [1, 2, 3, 4]

  lemma BeginMove(db: DB, id: nat, target: RunState)
    requires id in db.runs && db.runs[id].version > 0 && db.runs[id].state.CanTransition(target)
    requires target == QualityChecked ==> db.runs[id].data.navigation != Invalid
    ensures var row := db.runs[id];
            Begin(db, MoveRunRequest(id, row.version, target, REASON)) == RunRead(id, row.version, row, target)
  {
    hide ValidGeometry, ValidLines, BeginReplay;
  }

  lemma MoveStep(hypot: Hypot, db: DB, id: nat, target: RunState)
    requires id in db.runs
    ensures var row := db.runs[id];
            Advance(hypot, db, RunRead(id, row.version, row, target), [])
            == (db.(runs := db.runs[id := row.(state := target, version := row.version + 1)]), Finished(Done))
  {
  }

  /** Other requests can move the run to a state one step away. */
  lemma Moving(hypot: Hypot, s: System, id: nat, target: RunState) returns (rest: seq<Event>)
    requires SystemOk(hypot, s) && id in s.db.runs && s.db.runs[id].state.CanTransition(target)
    requires target == QualityChecked ==> s.db.runs[id].data.navigation != Invalid
    ensures SystemOk(hypot, Exec(hypot, s, rest)) && ReachesState(hypot, s, rest, id, target, s.db.runs[id].version + 1)
    ensures Exec(hypot, s, rest).db.runs[id].data == s.db.runs[id].data
  {
    hide SystemOk, Exec, Serve, Begin, Alone, Advance;
    var u := AboveAll(s.threads.Keys);
    var row := s.db.runs[id];
    RunVersionPositive(hypot, s, id);
    BeginMove(s.db, id, target);
    MoveStep(hypot, s.db, id, target);
    var request := MoveRunRequest(id, row.version, target, REASON);
    ServeAlone(hypot, s, u, request, [], 1);
    AloneOnce(hypot, s.db, Begin(s.db, request), []);
    rest := Serve(u, request, [], 1);
    ExecOk(hypot, s, rest);
  }

  lemma RunVersionPositive(hypot: Hypot, s: System, id: nat)
    requires SystemOk(hypot, s) && id in s.db.runs
    ensures s.db.runs[id].version > 0 && RunVersion(s.db.runs[id])
  {
    hide ThreadOk, GapsOk, ReplaysOk, AreasOk, PlansOk, KeysOk, ChecksumsUnique, GapKeysUnique, ReplayKeysUnique, DataOk;
    assert RunOk(s.db, s.db.runs[id]);
  }

  lemma MovingOn(hypot: Hypot, s: System, first: seq<Event>, id: nat, target: RunState, version: nat) returns (rest: seq<Event>)
    requires SystemOk(hypot, Exec(hypot, s, first)) && id in Exec(hypot, s, first).db.runs
    requires var row := Exec(hypot, s, first).db.runs[id];
             row.state.CanTransition(target) && target != QualityChecked && row.version + 1 == version
    ensures SystemOk(hypot, Exec(hypot, s, rest)) && ReachesState(hypot, s, rest, id, target, version)
  {
    hide SystemOk, Exec;
    var more := Moving(hypot, Exec(hypot, s, first), id, target);
    ExecSplit(hypot, s, first, more);
    rest := first + more;
  }

  /** An imported run can still go the whole way to being superseded, unless its navigation is invalid,
      and be rejected at every stage before it is processed: at version 2, 3 or 4. */
  lemma RunPaths(hypot: Hypot, s: System, id: nat)
    requires SystemOk(hypot, s) && id in s.db.runs && s.db.runs[id].state == Imported
    ensures exists rest :: ReachesState(hypot, s, rest, id, RunState.Rejected, 2)
    ensures s.db.runs[id].data.navigation != Invalid ==>
              && (exists rest :: ReachesState(hypot, s, rest, id, Processed, 4))
              && (exists rest :: ReachesState(hypot, s, rest, id, Superseded, 5))
              && (exists rest :: ReachesState(hypot, s, rest, id, RunState.Rejected, 3))
              && (exists rest :: ReachesState(hypot, s, rest, id, RunState.Rejected, 4))
  {
    hide SystemOk, Exec, RunVersion;
    assert s.db.runs[id].version == 1 by { ImportedIsFirst(hypot, s, id); }
    var rejected := Moving(hypot, s, id, RunState.Rejected);
    if s.db.runs[id].data.navigation != Invalid {
      var checked := Moving(hypot, s, id, QualityChecked);
      var rejected3 := MovingOn(hypot, s, checked, id, RunState.Rejected, 3);
      var processing := MovingOn(hypot, s, checked, id, Processing, 3);
      var rejected4 := MovingOn(hypot, s, processing, id, RunState.Rejected, 4);
      var processed := MovingOn(hypot, s, processing, id, Processed, 4);
      var superseded := MovingOn(hypot, s, processed, id, Superseded, 5);
    }
  }

  lemma ImportedIsFirst(hypot: Hypot, s: System, id: nat)
    requires SystemOk(hypot, s) && id in s.db.runs && s.db.runs[id].state == Imported
    ensures s.db.runs[id].version == 1
  {
    RunVersionPositive(hypot, s, id);
    hide SystemOk;
  }
}
