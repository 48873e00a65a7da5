/** Gap reviews over every interleaving: no stale read ever wins, notes are only appended, and the
    audit trail records real predecessors. */
module Reviews {
  import opened Euclid
  import opened CoverageLaws
  import opened States
  import opened Records
  import opened Services
  import opened Evolution
  import opened Invariant
  import opened Preservation
  import opened Runs
  import opened Text
  import opened Versions

  // ----- no ABA

  /** The row a successful review leaves behind. */
  ghost function ReviewedRow(before: GapRow, target: GapState, note: string): GapRow {
    before.(state := target, version := before.version + 1, explanation := WithNote(before.explanation, note))
  }

  /** What the step of a waiting review does. */
  ghost predicate Reviews(db: DB, next: (DB, Thread), id: nat, expected: nat, before: GapRow, target: GapState, note: string)
    requires id in db.gaps
  {
    var current := db.gaps[id] == before && expected == before.version;
    var fits := |WithNote(before.explanation, note)| <= MAX_EXPLANATION;
    && (!Lost(next.1) <==> current && fits)
    && (next.1 == Finished(Failed(StorageFailed)) <==> current && !fits)
    && (Lost(next.1) ==> next.0 == db)
    && (!Lost(next.1) ==> next == (db.(gaps := db.gaps[id := ReviewedRow(before, target, note)]),
                                   GapMoved(id, before, ReviewedRow(before, target, note))))
  }

  lemma ReviewStep(hypot: Hypot, db: DB, id: nat, expected: nat, before: GapRow, target: GapState, note: string, order: seq<nat>)
    requires id in db.gaps && GapEvolves(before, db.gaps[id])
    ensures Reviews(db, Advance(hypot, db, GapRead(id, expected, before, target, note), order), id, expected, before, target, note)
  {
    if GapMatches(db, id, expected, before.state) {
      MoveGapHits(db, id, expected, before);
      hide GapEvolves, WithNote;
    }
  }

  /** In every reachable state, a pending review succeeds exactly when its gap is still, field by
      field, the row it read, the expected version is that row's, and the note still fits the column;
      it then changes that row only. */
  lemma ReviewSeesCurrentRow(hypot: Hypot, events: seq<Event>, t: nat, order: seq<nat>)
    requires t in Run(hypot, events).threads && Run(hypot, events).threads[t].GapRead?
    ensures var s := Run(hypot, events);
            var r := s.threads[t];
            r.id in s.db.gaps
            && Reviews(s.db, Advance(hypot, s.db, r, order), r.id, r.expected, r.gapBefore, r.gapTarget, r.note)
  {
    hide Run, SystemOk, Advance, GapEvolves, Reviews;
    var s := Run(hypot, events);
    Reachable(hypot, events);
    ReadGap(hypot, s, t);
    var r := s.threads[t];
    ReviewStep(hypot, s.db, r.id, r.expected, r.gapBefore, r.gapTarget, r.note, order);
  }

  /** What a waiting review knows. */
  lemma ReadGap(hypot: Hypot, s: System, t: nat)
    requires SystemOk(hypot, s) && t in s.threads && s.threads[t].GapRead?
    ensures var r := s.threads[t];
            && r.id in s.db.gaps && GapEvolves(r.gapBefore, s.db.gaps[r.id])
            && r.gapBefore.state.CanTransition(r.gapTarget) && MIN_NOTE <= |r.note| <= MAX_NOTE
  {
    hide SystemOk, GapEvolves, AreaEvolves, PlanEvolves, RunEvolves, DetectOk, ReplayThreadOk;
    ThreadHolds(hypot, s, t);
  }

  lemma DetectedText(db: DB, gap: GapRow)
    requires GapOk(db, gap) && gap.state == Detected
    ensures var data := gap.data;
            && 0.0 < data.key.resolution <= 100.0
            && gap.explanation == Analysed(data.key.resolution, data.result.sampleCells, data.result.filteredFragments)
            && data.result.sampleCells <= 60000 && data.result.filteredFragments <= 1
  {
    hide Analysed, Coverage.Assess, GapVersion;
    var data := gap.data;
    FewCells(data.analysed, TracksOf(db.runs, data.sourceRuns), data.key.resolution, data.result);
  }

  /** The first review of a gap always finds room for its note: in every reachable state it succeeds
      exactly when its gap is the row it read and the expected version is that row's. */
  lemma FirstReviewFits(hypot: Hypot, events: seq<Event>, t: nat, order: seq<nat>)
    requires t in Run(hypot, events).threads && Run(hypot, events).threads[t].GapRead?
    requires Run(hypot, events).threads[t].gapBefore.state == Detected
    ensures var s := Run(hypot, events);
            var r := s.threads[t];
            r.id in s.db.gaps
            && (!Lost(Advance(hypot, s.db, r, order).1) <==> s.db.gaps[r.id] == r.gapBefore && r.expected == r.gapBefore.version)
  {
    hide Run, SystemOk, Advance, GapEvolves, GapOk, WithNote, Analysed;
    var s := Run(hypot, events);
    var r := s.threads[t];
    Reachable(hypot, events);
    ReadGap(hypot, s, t);
    ReviewSeesCurrentRow(hypot, events, t, order);
    if s.db.gaps[r.id] == r.gapBefore {
      StoredGapOk(hypot, s, r.id);
      DetectedText(s.db, r.gapBefore);
      var data := r.gapBefore.data;
      FirstNoteFits(data.key.resolution, data.result.sampleCells, data.result.filteredFragments, r.note);
    }
  }

  lemma StoredGapOk(hypot: Hypot, s: System, id: nat)
    requires SystemOk(hypot, s) && id in s.db.gaps
    ensures GapOk(s.db, s.db.gaps[id])
  {
    hide GapOk, ThreadOk, ReplaysOk;
  }

  // ----- what the explanation gains

  /** What an event appends to the explanation of a gap. */
  ghost function NoteAdded(hypot: Hypot, s: System, e: Event, id: nat): string {
    if WinsOn(hypot, s, e, Gaps, id) then REVIEW_MARK + s.threads[e.thread].note else ""
  }

  ghost function NotesAdded(hypot: Hypot, s: System, events: seq<Event>, id: nat): string {
    if |events| == 0 then ""
    else
      var n := |events| - 1;
      NotesAdded(hypot, s, events[..n], id) + NoteAdded(hypot, Exec(hypot, s, events[..n]), events[n], id)
  }

  /** A step changes a gap only by reviewing the very row it was. */
  lemma StepReviews(hypot: Hypot, s: System, e: Event, id: nat)
    requires SystemOk(hypot, s) && id in s.db.gaps
    ensures id in Apply(hypot, s, e).db.gaps
    ensures WinsOn(hypot, s, e, Gaps, id) ==>
              && e.Step? && e.thread in s.threads && s.threads[e.thread].GapRead?
              && var r := s.threads[e.thread];
                 && r.gapBefore == s.db.gaps[id] && r.expected == s.db.gaps[id].version
                 && r.gapBefore.state.CanTransition(r.gapTarget)
                 && |r.note| >= MIN_NOTE && |WithNote(s.db.gaps[id].explanation, r.note)| <= MAX_EXPLANATION
                 && Apply(hypot, s, e).db.gaps[id] == ReviewedRow(s.db.gaps[id], r.gapTarget, r.note)
    ensures !WinsOn(hypot, s, e, Gaps, id) ==> Apply(hypot, s, e).db.gaps[id] == s.db.gaps[id]
  {
    hide Begin, SystemOk, Advance, GapEvolves, WithNote, ReviewedRow, KeysOk;
    KeysOfOk(hypot, s);
    if e.Step? && e.thread in s.threads {
      var r := s.threads[e.thread];
      if r.GapRead? {
        ReadGap(hypot, s, e.thread);
        ReviewStep(hypot, s.db, r.id, r.expected, r.gapBefore, r.gapTarget, r.note, e.order);
      } else {
        OthersKeepGaps(hypot, s.db, r, e.order, id);
      }
    }
  }

  lemma StepAppends(hypot: Hypot, s: System, e: Event, id: nat)
    requires SystemOk(hypot, s) && id in s.db.gaps
    ensures id in Apply(hypot, s, e).db.gaps
    ensures Apply(hypot, s, e).db.gaps[id].explanation == s.db.gaps[id].explanation + NoteAdded(hypot, s, e, id)
  {
    hide Apply, SystemOk, WinsOn;
    StepReviews(hypot, s, e, id);
    var now := s.db.gaps[id].explanation;
    if WinsOn(hypot, s, e, Gaps, id) {
      assert WithNote(now, s.threads[e.thread].note) == now + (REVIEW_MARK + s.threads[e.thread].note);
    } else {
      assert now + "" == now;
    }
  }

  /** No review note is lost, changed or reordered: while any events run, an explanation gains the
      notes of the successful reviews, one after the other, and nothing else. */
  lemma {:induction false} ExplanationOnlyAppends(hypot: Hypot, s: System, events: seq<Event>, id: nat)
    requires SystemOk(hypot, s) && id in s.db.gaps
    ensures id in Exec(hypot, s, events).db.gaps
    ensures Exec(hypot, s, events).db.gaps[id].explanation == s.db.gaps[id].explanation + NotesAdded(hypot, s, events, id)
  {
    hide SystemOk, Apply, NoteAdded;
    var start := s.db.gaps[id].explanation;
    if |events| > 0 {
      var n := |events| - 1;
      ExplanationOnlyAppends(hypot, s, events[..n], id);
      ExecOk(hypot, s, events[..n]);
      var mid := Exec(hypot, s, events[..n]);
      StepAppends(hypot, mid, events[n], id);
      var added := NoteAdded(hypot, mid, events[n], id);
      assert start + NotesAdded(hypot, s, events[..n], id) + added == start + (NotesAdded(hypot, s, events[..n], id) + added);
    } else {
      assert start + "" == start;
    }
  }

  // ----- which gaps can still change

  /** The gap is not closed and its column has room for the shortest note. */
  ghost predicate Open(row: GapRow) {
    row.state != Closed && HasRoom(row.explanation)
  }

  ghost predicate Changes(hypot: Hypot, s: System, rest: seq<Event>, id: nat)
    requires id in s.db.gaps
  {
    id in Exec(hypot, s, rest).db.gaps && Exec(hypot, s, rest).db.gaps[id] != s.db.gaps[id]
  }

  /** A gap that is closed, or whose explanation is full, never changes again. */
  lemma {:induction false} NeverChanges(hypot: Hypot, s: System, rest: seq<Event>, id: nat)
    requires SystemOk(hypot, s) && id in s.db.gaps && !Open(s.db.gaps[id])
    ensures id in Exec(hypot, s, rest).db.gaps && Exec(hypot, s, rest).db.gaps[id] == s.db.gaps[id]
  {
    hide SystemOk, Apply, WinsOn, ReviewedRow;
    if |rest| > 0 {
      var n := |rest| - 1;
      NeverChanges(hypot, s, rest[..n], id);
      ExecOk(hypot, s, rest[..n]);
      StepReviews(hypot, Exec(hypot, s, rest[..n]), rest[n], id);
    }
  }

  const SHORT_NOTE := "reviewed"

  /** A state the gap can move to. */
  function NextState(state: GapState): GapState {
    match state
    case Detected => GapState.Reviewed
    case Reviewed => Accepted
    case Accepted => Resurveyed
    case FalsePositive => Closed
    case Resurveyed => Closed
    case Closed => Closed
  }

  /** A request that reviews the gap as it stands. */
  function NextReview(id: nat, row: GapRow): Request {
    ReviewRequest(id, row.version, NextState(row.state), SHORT_NOTE)
  }

  lemma BeginReview(db: DB, id: nat, target: GapState, note: string)
    requires id in db.gaps && GapVersion(db.gaps[id]) && db.gaps[id].state.CanTransition(target)
    requires MIN_NOTE <= |note| <= MAX_NOTE
    ensures var row := db.gaps[id];
            Begin(db, ReviewRequest(id, row.version, target, note)) == GapRead(id, row.version, row, target, note)
  {
  }

  lemma NoteFitsOpen(row: GapRow)
    requires Open(row)
    ensures |WithNote(row.explanation, SHORT_NOTE)| <= MAX_EXPLANATION
    ensures ReviewedRow(row, NextState(row.state), SHORT_NOTE) != row
    ensures row.state.CanTransition(NextState(row.state))
  {
  }

  /** Serving a review alone, up to its update, changes the gap and no other request. */
  lemma ServeReviewTo(hypot: Hypot, s: System, u: nat, id: nat, target: GapState, note: string)
    requires SystemOk(hypot, s) && u !in s.threads && id in s.db.gaps && s.db.gaps[id].state.CanTransition(target)
    requires MIN_NOTE <= |note| <= MAX_NOTE && |WithNote(s.db.gaps[id].explanation, note)| <= MAX_EXPLANATION
    ensures var row := s.db.gaps[id];
            var now := ReviewedRow(row, target, note);
            Exec(hypot, s, Serve(u, ReviewRequest(id, row.version, target, note), [], 1))
            == System(s.db.(gaps := s.db.gaps[id := now]), s.threads[u := GapMoved(id, row, now)])
  {
    hide SystemOk, Begin, Advance, Exec, Serve, Alone, GapVersion, ReviewedRow, WithNote, GapEvolves;
    var row := s.db.gaps[id];
    GapVersionOf(hypot, s, id);
    GapSame(row);
    BeginReview(s.db, id, target, note);
    var request := ReviewRequest(id, row.version, target, note);
    ServeAlone(hypot, s, u, request, [], 1);
    AloneOnce(hypot, s.db, Begin(s.db, request), []);
    ReviewStep(hypot, s.db, id, row.version, row, target, note, []);
  }

  /** The next review in the life of an open gap. */
  lemma ServeReview(hypot: Hypot, s: System, u: nat, id: nat)
    requires SystemOk(hypot, s) && u !in s.threads && id in s.db.gaps && Open(s.db.gaps[id])
    ensures var row := s.db.gaps[id];
            var now := ReviewedRow(row, NextState(row.state), SHORT_NOTE);
            && now != row
            && Exec(hypot, s, Serve(u, NextReview(id, row), [], 1))
               == System(s.db.(gaps := s.db.gaps[id := now]), s.threads[u := GapMoved(id, row, now)])
  {
    NoteFitsOpen(s.db.gaps[id]);
    hide SystemOk, Exec, Serve, ReviewedRow, WithNote, Open;
    ServeReviewTo(hypot, s, u, id, NextState(s.db.gaps[id].state), SHORT_NOTE);
  }

  /** In every state the invariants allow, a gap can still change if and only if it is not closed and
      its explanation has room for one more note. */
  lemma ReviewableIff(hypot: Hypot, s: System, id: nat)
    requires SystemOk(hypot, s) && id in s.db.gaps
    ensures (exists rest :: Changes(hypot, s, rest, id)) <==> Open(s.db.gaps[id])
  {
    hide SystemOk, Exec, Open, Serve, ReviewedRow;
    if Open(s.db.gaps[id]) {
      var u := AboveAll(s.threads.Keys);
      ServeReview(hypot, s, u, id);
      assert Changes(hypot, s, Serve(u, NextReview(id, s.db.gaps[id]), [], 1), id);
    } else {
      forall rest ensures !Changes(hypot, s, rest, id) {
        NeverChanges(hypot, s, rest, id);
      }
    }
  }

  // ----- when the audit of a review reads a later row

  /** After these events, the waiting audit of a review reads another row than the review wrote. */
  ghost predicate ReadsLater(hypot: Hypot, s: System, rest: seq<Event>, t: nat)
    requires t in s.threads && s.threads[t].GapMoved?
  {
    var later := Exec(hypot, s, rest);
    && t in later.threads && later.threads[t] == s.threads[t]
    && var next := Advance(hypot, later.db, s.threads[t], []).1;
       next.GapReread? && next.gapAfter != s.threads[t].written
  }

  lemma RereadReads(hypot: Hypot, db: DB, id: nat, before: GapRow, written: GapRow)
    requires id in db.gaps
    ensures Advance(hypot, db, GapMoved(id, before, written), []) == (db, GapReread(id, before, written, db.gaps[id]))
  {
  }

  lemma ReadsWhatIsThere(hypot: Hypot, s: System, rest: seq<Event>, t: nat)
    requires t in s.threads && s.threads[t].GapMoved? && s.threads[t].id in Exec(hypot, s, rest).db.gaps
    requires t in Exec(hypot, s, rest).threads && Exec(hypot, s, rest).threads[t] == s.threads[t]
    ensures ReadsLater(hypot, s, rest, t) <==> Exec(hypot, s, rest).db.gaps[s.threads[t].id] != s.threads[t].written
  {
    hide Exec, Advance;
    var r := s.threads[t];
    RereadReads(hypot, Exec(hypot, s, rest).db, r.id, r.gapBefore, r.written);
  }

  lemma OpenReadsLater(hypot: Hypot, s: System, t: nat) returns (rest: seq<Event>)
    requires SystemOk(hypot, s) && t in s.threads && s.threads[t].GapMoved? && s.threads[t].id in s.db.gaps
    requires s.db.gaps[s.threads[t].id] == s.threads[t].written && Open(s.threads[t].written)
    ensures ReadsLater(hypot, s, rest, t)
  {
    hide SystemOk, Exec, Open, Serve, ReviewedRow, ReadsLater;
    var r := s.threads[t];
    var u := AboveAll(s.threads.Keys);
    ServeReview(hypot, s, u, r.id);
    rest := Serve(u, NextReview(r.id, r.written), [], 1);
    ReadsWhatIsThere(hypot, s, rest, t);
  }

  lemma FullReadsWritten(hypot: Hypot, s: System, rest: seq<Event>, t: nat)
    requires SystemOk(hypot, s) && t in s.threads && s.threads[t].GapMoved? && s.threads[t].id in s.db.gaps
    requires s.db.gaps[s.threads[t].id] == s.threads[t].written && !Open(s.threads[t].written)
    ensures !ReadsLater(hypot, s, rest, t)
  {
    hide SystemOk, Exec, Open, Advance;
    var r := s.threads[t];
    NeverChanges(hypot, s, rest, r.id);
    RereadReads(hypot, Exec(hypot, s, rest).db, r.id, r.gapBefore, r.written);
  }

  /** The audit entry of a review can end up with a later row than the one written as its `after` if
      and only if the gap has already changed again or still can. */
  lemma LaterAfterIff(hypot: Hypot, s: System, t: nat)
    requires SystemOk(hypot, s) && t in s.threads && s.threads[t].GapMoved?
    ensures var r := s.threads[t];
            r.id in s.db.gaps
            && ((exists rest :: ReadsLater(hypot, s, rest, t)) <==> s.db.gaps[r.id] != r.written || Open(r.written))
  {
    hide SystemOk, Exec, Open, ReadsLater, GapEvolves;
    MovedGapStays(hypot, s, t);
    var r := s.threads[t];
    if s.db.gaps[r.id] != r.written {
      NoEvents(hypot, s);
      ReadsWhatIsThere(hypot, s, [], t);
    } else if Open(r.written) {
      var rest := OpenReadsLater(hypot, s, t);
    } else {
      forall rest ensures !ReadsLater(hypot, s, rest, t) {
        FullReadsWritten(hypot, s, rest, t);
      }
    }
  }

  lemma NoEvents(hypot: Hypot, s: System)
    ensures Exec(hypot, s, []) == s
  {
  }

  // ----- the audit trail

  /** The thread is a review of this very row, expecting its version, and leads to that row. */
  ghost predicate ReviewedBy(s: System, t: nat, id: nat, before: GapRow, written: GapRow) {
    && t in s.threads && s.threads[t].GapRead?
    && s.threads[t].id == id && s.threads[t].gapBefore == before && s.threads[t].expected == before.version
    && written == ReviewedRow(before, s.threads[t].gapTarget, s.threads[t].note)
  }

  /** At some moment of the run, this row was replaced by that one in a single successful review. */
  ghost predicate Replaced(hypot: Hypot, events: seq<Event>, i: nat, id: nat, before: GapRow, written: GapRow) {
    && i < |events|
    && id in Run(hypot, events[..i]).db.gaps && Run(hypot, events[..i]).db.gaps[id] == before
    && id in Run(hypot, events[..i + 1]).db.gaps && Run(hypot, events[..i + 1]).db.gaps[id] == written
    && events[i].Step? && ReviewedBy(Run(hypot, events[..i]), events[i].thread, id, before, written)
  }

  ghost predicate WasReplaced(hypot: Hypot, events: seq<Event>, id: nat, before: GapRow, written: GapRow) {
    exists i: nat :: Replaced(hypot, events, i, id, before, written)
  }

  /** At some moment of the run, the gap was this row. */
  ghost predicate Was(hypot: Hypot, events: seq<Event>, id: nat, row: GapRow) {
    exists i: nat :: i <= |events| && id in Run(hypot, events[..i]).db.gaps && Run(hypot, events[..i]).db.gaps[id] == row
  }

  /** The entry's first row is the exact predecessor of a row some review wrote, and its second row
      is that row or, when others wrote in between, a later one. */
  ghost predicate Recorded(hypot: Hypot, events: seq<Event>, entry: AuditRow) {
    exists written ::
      && WasReplaced(hypot, events, entry.gap, entry.before, written)
      && GapEvolves(written, entry.after)
      && Was(hypot, events, entry.gap, entry.after)
  }

  ghost predicate Traced(hypot: Hypot, events: seq<Event>, thread: Thread) {
    match thread
    case GapMoved(id, before, written) => WasReplaced(hypot, events, id, before, written)
    case GapReread(id, before, written, after) =>
      WasReplaced(hypot, events, id, before, written) && GapEvolves(written, after) && Was(hypot, events, id, after)
    case _ => true
  }

  ghost predicate AllTraced(hypot: Hypot, events: seq<Event>) {
    && (forall t :: t in Run(hypot, events).threads ==> Traced(hypot, events, Run(hypot, events).threads[t]))
    && (forall k :: 0 <= k < |Run(hypot, events).db.audits| ==> Recorded(hypot, events, Run(hypot, events).db.audits[k]))
  }

  lemma ReplacedLater(hypot: Hypot, events: seq<Event>, more: seq<Event>, id: nat, before: GapRow, written: GapRow)
    requires events <= more && WasReplaced(hypot, events, id, before, written)
    ensures WasReplaced(hypot, more, id, before, written)
  {
    hide Run, ReviewedBy;
    var i: nat :| Replaced(hypot, events, i, id, before, written);
    assert more[..i] == events[..i] && more[..i + 1] == events[..i + 1];
    assert Replaced(hypot, more, i, id, before, written);
  }

  lemma WasLater(hypot: Hypot, events: seq<Event>, more: seq<Event>, id: nat, row: GapRow)
    requires events <= more && Was(hypot, events, id, row)
    ensures Was(hypot, more, id, row)
  {
    hide Run;
    var i: nat :| i <= |events| && id in Run(hypot, events[..i]).db.gaps && Run(hypot, events[..i]).db.gaps[id] == row;
    assert more[..i] == events[..i];
  }

  lemma RecordedLater(hypot: Hypot, events: seq<Event>, more: seq<Event>, entry: AuditRow)
    requires events <= more && Recorded(hypot, events, entry)
    ensures Recorded(hypot, more, entry)
  {
    hide WasReplaced, Was, GapEvolves;
    var written :| WasReplaced(hypot, events, entry.gap, entry.before, written) && GapEvolves(written, entry.after)
                && Was(hypot, events, entry.gap, entry.after);
    ReplacedLater(hypot, events, more, entry.gap, entry.before, written);
    WasLater(hypot, events, more, entry.gap, entry.after);
  }

  lemma TracedLater(hypot: Hypot, events: seq<Event>, more: seq<Event>, thread: Thread)
    requires events <= more && Traced(hypot, events, thread)
    ensures Traced(hypot, more, thread)
  {
    hide WasReplaced, Was, GapEvolves;
    match thread
    case GapMoved(id, before, written) => ReplacedLater(hypot, events, more, id, before, written);
    case GapReread(id, before, written, after) =>
      ReplacedLater(hypot, events, more, id, before, written);
      WasLater(hypot, events, more, id, after);
    case _ =>
  }

  lemma OthersAreNotTraced(hypot: Hypot, db: DB, thread: Thread, order: seq<nat>)
    requires !thread.GapRead? && !thread.GapMoved?
    ensures var next := Advance(hypot, db, thread, order).1; !next.GapMoved? && !next.GapReread?
  {
    hide ReplayOf, Coverage.Assess;
  }

  lemma ReadTraced(hypot: Hypot, events: seq<Event>, t: nat, order: seq<nat>)
    requires t in Run(hypot, events).threads && Run(hypot, events).threads[t].GapRead?
    ensures Traced(hypot, events + [Step(t, order)], Apply(hypot, Run(hypot, events), Step(t, order)).threads[t])
  {
    hide Run, SystemOk, GapEvolves, ReviewedRow, CountWins;
    var e := Step(t, order);
    var s := Run(hypot, events);
    Appended(hypot, events, e);
    Reachable(hypot, events);
    ReadGap(hypot, s, t);
    var r := s.threads[t];
    ReviewStep(hypot, s.db, r.id, r.expected, r.gapBefore, r.gapTarget, r.note, order);
    hide Advance;
    var next := Apply(hypot, s, e);
    if !Lost(next.threads[t]) {
      assert Replaced(hypot, events + [e], |events|, r.id, r.gapBefore, next.db.gaps[r.id]);
    }
  }

  /** The step a thread takes at the end of a run is itself traceable. */
  lemma StepTraced(hypot: Hypot, events: seq<Event>, t: nat, order: seq<nat>)
    requires t in Run(hypot, events).threads && Traced(hypot, events, Run(hypot, events).threads[t])
    ensures Traced(hypot, events + [Step(t, order)], Apply(hypot, Run(hypot, events), Step(t, order)).threads[t])
  {
    var s := Run(hypot, events);
    var more := events + [Step(t, order)];
    var thread := s.threads[t];
    if thread.GapRead? {
      ReadTraced(hypot, events, t, order);
    } else if thread.GapMoved? {
      MovedTraced(hypot, events, t, order);
    } else {
      hide Run, Advance, WasReplaced, Was;
      OthersAreNotTraced(hypot, s.db, thread, order);
    }
  }

  lemma MovedGapStays(hypot: Hypot, s: System, t: nat)
    requires SystemOk(hypot, s) && t in s.threads && s.threads[t].GapMoved?
    ensures var r := s.threads[t]; r.id in s.db.gaps && GapEvolves(r.written, s.db.gaps[r.id])
  {
    hide SystemOk, GapEvolves, AreaEvolves, PlanEvolves, RunEvolves, DetectOk, ReplayThreadOk;
    ThreadHolds(hypot, s, t);
  }

  lemma MovedTraced(hypot: Hypot, events: seq<Event>, t: nat, order: seq<nat>)
    requires t in Run(hypot, events).threads && Run(hypot, events).threads[t].GapMoved?
    requires Traced(hypot, events, Run(hypot, events).threads[t])
    ensures Traced(hypot, events + [Step(t, order)], Apply(hypot, Run(hypot, events), Step(t, order)).threads[t])
  {
    hide Run, SystemOk, GapEvolves, WasReplaced;
    var s := Run(hypot, events);
    var more := events + [Step(t, order)];
    var r := s.threads[t];
    Reachable(hypot, events);
    MovedGapStays(hypot, s, t);
    assert events[..|events|] == events;
    assert Was(hypot, events, r.id, s.db.gaps[r.id]);
    ReplacedLater(hypot, events, more, r.id, r.gapBefore, r.written);
    WasLater(hypot, events, more, r.id, s.db.gaps[r.id]);
    assert Apply(hypot, s, Step(t, order)).threads[t] == GapReread(r.id, r.gapBefore, r.written, s.db.gaps[r.id]);
  }

  lemma StoresKeepAudits(hypot: Hypot, db: DB, thread: Thread)
    ensures thread.DetectMissed? ==> StoreGap(db, thread.ids, thread.tracks, thread.key, thread.boundary).0.audits == db.audits
    ensures thread.ReplayMissed? ==> StoreReplay(hypot, db, thread.run, thread.runBefore, thread.replayKey).0.audits == db.audits
  {
    hide ReplayOf, Coverage.Assess;
  }

  lemma AdvanceAudits(hypot: Hypot, db: DB, thread: Thread, order: seq<nat>)
    ensures Advance(hypot, db, thread, order).0.audits
         == db.audits + if thread.GapReread? then [AuditRow(thread.id, thread.gapBefore, thread.gapAfter)] else []
  {
    hide StoreGap, StoreReplay, ReadRuns;
    StoresKeepAudits(hypot, db, thread);
    assert db.audits + [] == db.audits;
  }

  lemma AuditsGrow(hypot: Hypot, s: System, e: Event)
    ensures var after := Apply(hypot, s, e);
            after.db.audits == s.db.audits
            || (e.Step? && e.thread in s.threads && s.threads[e.thread].GapReread?
                && var r := s.threads[e.thread]; after.db.audits == s.db.audits + [AuditRow(r.id, r.gapBefore, r.gapAfter)])
  {
    hide Begin, Advance;
    if e.Step? && e.thread in s.threads {
      AdvanceAudits(hypot, s.db, s.threads[e.thread], e.order);
      assert s.db.audits + [] == s.db.audits;
    }
  }

  lemma {:induction false} RunTraced(hypot: Hypot, events: seq<Event>)
    ensures AllTraced(hypot, events)
  {
    hide Traced, Recorded, Apply, Begin;
    if |events| > 0 {
      var n := |events| - 1;
      var e := events[n];
      RunTraced(hypot, events[..n]);
      var s := Run(hypot, events[..n]);
      assert events == events[..n] + [e];
      assert Run(hypot, events) == Apply(hypot, s, e);
      forall t | t in Run(hypot, events).threads ensures Traced(hypot, events, Run(hypot, events).threads[t]) {
        ThreadTraced(hypot, events[..n], e, t);
      }
      forall k | 0 <= k < |Run(hypot, events).db.audits| ensures Recorded(hypot, events, Run(hypot, events).db.audits[k]) {
        EntryRecorded(hypot, events[..n], e, k);
      }
    }
  }

  lemma ThreadTraced(hypot: Hypot, events: seq<Event>, e: Event, t: nat)
    requires AllTraced(hypot, events) && t in Apply(hypot, Run(hypot, events), e).threads
    ensures Traced(hypot, events + [e], Apply(hypot, Run(hypot, events), e).threads[t])
  {
    hide Run, Begin, Advance, WasReplaced, Was;
    var s := Run(hypot, events);
    if e.Step? && e.thread == t && t in s.threads {
      StepTraced(hypot, events, t, e.order);
    } else if t in s.threads {
      TracedLater(hypot, events, events + [e], s.threads[t]);
    } else {
      BeginsUntraced(s.db, e.request);
    }
  }

  lemma BeginsUntraced(db: DB, request: Request)
    ensures !Begin(db, request).GapMoved? && !Begin(db, request).GapReread?
  {
    hide Replay.Flatten, Rings.Contains;
  }

  lemma EntryRecorded(hypot: Hypot, events: seq<Event>, e: Event, k: nat)
    requires AllTraced(hypot, events) && k < |Apply(hypot, Run(hypot, events), e).db.audits|
    ensures Recorded(hypot, events + [e], Apply(hypot, Run(hypot, events), e).db.audits[k])
  {
    hide Run, Apply, WasReplaced, Was;
    var s := Run(hypot, events);
    AuditsGrow(hypot, s, e);
    if k < |s.db.audits| {
      RecordedLater(hypot, events, events + [e], s.db.audits[k]);
    } else {
      var r := s.threads[e.thread];
      assert Traced(hypot, events, r);
      assert Recorded(hypot, events, AuditRow(r.id, r.gapBefore, r.gapAfter));
      RecordedLater(hypot, events, events + [e], AuditRow(r.id, r.gapBefore, r.gapAfter));
    }
  }

  /** Over any interleaving, the `before` of every audit entry is the exact row a successful review
      replaced, and its `after` is the row that review wrote or a later state of it. */
  lemma AuditsRecordPredecessors(hypot: Hypot, events: seq<Event>, k: nat)
    requires k < |Run(hypot, events).db.audits|
    ensures Recorded(hypot, events, Run(hypot, events).db.audits[k])
  {
    RunTraced(hypot, events);
  }

  // ----- how a gap was closed

  /** At some moment of the run, the gap was in this state. */
  ghost predicate WasIn(hypot: Hypot, events: seq<Event>, id: nat, state: GapState) {
    exists i: nat :: StateAt(hypot, events, i, id, state)
  }

  ghost predicate StateAt(hypot: Hypot, events: seq<Event>, i: nat, id: nat, state: GapState) {
    i <= |events| && id in Run(hypot, events[..i]).db.gaps && Run(hypot, events[..i]).db.gaps[id].state == state
  }

  /** What a closed gap's version says about the state it was closed from. */
  ghost predicate ClosedFrom(hypot: Hypot, events: seq<Event>, id: nat, version: nat) {
    (version == 4 && WasIn(hypot, events, id, FalsePositive)) || (version == 5 && WasIn(hypot, events, id, Resurveyed))
  }

  lemma NewGapsAreDetected(hypot: Hypot, db: DB, thread: Thread, order: seq<nat>, id: nat)
    requires id !in db.gaps && id in Advance(hypot, db, thread, order).0.gaps
    ensures Advance(hypot, db, thread, order).0.gaps[id].state == Detected
  {
    hide ReadRuns, ReplayOf, Coverage.Assess, Analysed;
  }

  /** The event that closes a gap finds it a false positive or resurveyed. */
  lemma ClosingStep(hypot: Hypot, s: System, e: Event, id: nat)
    requires SystemOk(hypot, s) && id in Apply(hypot, s, e).db.gaps && Apply(hypot, s, e).db.gaps[id].state == Closed
    ensures id in s.db.gaps
    ensures var was, now := s.db.gaps[id], Apply(hypot, s, e).db.gaps[id];
            was == now || (was.state == FalsePositive && now.version == 4) || (was.state == Resurveyed && now.version == 5)
  {
    hide Begin, SystemOk, Advance, WinsOn, WithNote;
    if id in s.db.gaps {
      GapVersionOf(hypot, s, id);
      StepReviews(hypot, s, e, id);
    } else if e.Step? && e.thread in s.threads {
      NewGapsAreDetected(hypot, s.db, s.threads[e.thread], e.order, id);
    }
  }

  lemma GapVersionOf(hypot: Hypot, s: System, id: nat)
    requires SystemOk(hypot, s) && id in s.db.gaps
    ensures GapVersion(s.db.gaps[id]) && KeysOk(s.db)
  {
    assert GapOk(s.db, s.db.gaps[id]);
  }

  lemma StateAtLater(hypot: Hypot, events: seq<Event>, e: Event, id: nat, state: GapState)
    requires WasIn(hypot, events, id, state)
    ensures WasIn(hypot, events + [e], id, state)
  {
    hide Run;
    var i: nat :| StateAt(hypot, events, i, id, state);
    assert (events + [e])[..i] == events[..i];
    assert StateAt(hypot, events + [e], i, id, state);
  }

  lemma {:induction false} ClosedGapCame(hypot: Hypot, events: seq<Event>, id: nat)
    requires id in Run(hypot, events).db.gaps && Run(hypot, events).db.gaps[id].state == Closed
    ensures ClosedFrom(hypot, events, id, Run(hypot, events).db.gaps[id].version)
  {
    hide Apply, WasIn, SystemOk;
    if |events| > 0 {
      var n := |events| - 1;
      var first, e := events[..n], events[n];
      assert events == first + [e];
      Appended(hypot, first, e);
      Reachable(hypot, first);
      var s := Run(hypot, first);
      ClosingStep(hypot, s, e, id);
      hide Run;
      if s.db.gaps[id].state == Closed {
        ClosedGapCame(hypot, first, id);
        if s.db.gaps[id].version == 4 {
          StateAtLater(hypot, first, e, id, FalsePositive);
        } else {
          StateAtLater(hypot, first, e, id, Resurveyed);
        }
      } else {
        NowIn(hypot, first, id);
        StateAtLater(hypot, first, e, id, s.db.gaps[id].state);
      }
    }
  }

  lemma NowIn(hypot: Hypot, events: seq<Event>, id: nat)
    requires id in Run(hypot, events).db.gaps
    ensures WasIn(hypot, events, id, Run(hypot, events).db.gaps[id].state)
  {
    hide Run;
    assert events[..|events|] == events;
    assert StateAt(hypot, events, |events|, id, Run(hypot, events).db.gaps[id].state);
  }

  /** A gap that was once a false positive, or once resurveyed, can only be closed at one version. */
  lemma ClosesAt(hypot: Hypot, events: seq<Event>, id: nat, state: GapState)
    requires (state == FalsePositive || state == Resurveyed) && WasIn(hypot, events, id, state)
    requires id in Run(hypot, events).db.gaps && Run(hypot, events).db.gaps[id].state == Closed
    ensures Run(hypot, events).db.gaps[id].version == if state == FalsePositive then 4 else 5
  {
    hide Evolves, SystemOk;
    var i: nat :| StateAt(hypot, events, i, id, state);
    Reachable(hypot, events[..i]);
    GapVersionOf(hypot, Run(hypot, events[..i]), id);
    RunEvolution(hypot, events, i, |events|);
    assert events[..|events|] == events;
    hide Run;
    GapBetween(Run(hypot, events[..i]).db, Run(hypot, events).db, id);
  }

  lemma GapBetween(a: DB, b: DB, id: nat)
    requires Evolves(a, b) && id in a.gaps
    ensures id in b.gaps && GapEvolves(a.gaps[id], b.gaps[id])
  {
  }

  /** A closed gap has version 4 exactly when it was once a false positive, and version 5 exactly
      when it was once resurveyed; no other version is possible. */
  lemma ClosedGapHistory(hypot: Hypot, events: seq<Event>, id: nat)
    requires id in Run(hypot, events).db.gaps && Run(hypot, events).db.gaps[id].state == Closed
    ensures var version := Run(hypot, events).db.gaps[id].version;
            && (version == 4 || version == 5)
            && (version == 4 <==> WasIn(hypot, events, id, FalsePositive))
            && (version == 5 <==> WasIn(hypot, events, id, Resurveyed))
  {
    hide Run, WasIn;
    ClosedGapCame(hypot, events, id);
    if WasIn(hypot, events, id, FalsePositive) {
      ClosesAt(hypot, events, id, FalsePositive);
    }
    if WasIn(hypot, events, id, Resurveyed) {
      ClosesAt(hypot, events, id, Resurveyed);
    }
  }
}
