/** Optimistic locking over whole runs: versions count the successful updates, one at a time. */
module Versions {
  import opened Euclid
  import opened Options
  import opened Records
  import opened Services
  import opened Evolution
  import opened Invariant
  import opened Preservation
  import opened Runs

  datatype Table = Areas | Plans | Runs | Gaps

  /** A conditional update of one row, and the version it names. */
  datatype Claim = Claim(table: Table, id: nat, version: nat)

  ghost predicate Present(db: DB, table: Table, id: nat) {
    match table
    case Areas => id in db.areas
    case Plans => id in db.plans
    case Runs => id in db.runs
    case Gaps => id in db.gaps
  }

  ghost function VersionOf(db: DB, table: Table, id: nat): nat
    requires Present(db, table, id)
  {
    match table
    case Areas => db.areas[id].version
    case Plans => db.plans[id].version
    case Runs => db.runs[id].version
    case Gaps => db.gaps[id].version
  }

  /** The update a request attempts with its next step. */
  ghost function Attempt(thread: Thread): Option<Claim> {
    match thread
    case AreaRead(id, expected, _, _) => Some(Claim(Areas, id, expected))
    case PlanRead(id, expected, _, _) => Some(Claim(Plans, id, expected))
    case LockRead(id, expected, _) => Some(Claim(Plans, id, expected))
    case RunRead(id, expected, _, _) => Some(Claim(Runs, id, expected))
    case GapRead(id, expected, _, _, _) => Some(Claim(Gaps, id, expected))
    case _ => None
  }

  ghost predicate Lost(thread: Thread) {
    thread.Finished? && thread.outcome.Failed?
  }

  /** The update this event performs, if it attempts one and does not fail. */
  ghost function Win(hypot: Hypot, s: System, e: Event): Option<Claim> {
    if e.Step? && e.thread in s.threads && !Lost(Advance(hypot, s.db, s.threads[e.thread], e.order).1)
    then Attempt(s.threads[e.thread]) else None
  }

  ghost predicate WinsOn(hypot: Hypot, s: System, e: Event, table: Table, id: nat) {
    var win := Win(hypot, s, e);
    win.Some? && win.value.table == table && win.value.id == id
  }

  /** The number of successful updates of a row while the events run. */
  ghost function CountWins(hypot: Hypot, s: System, events: seq<Event>, table: Table, id: nat): nat {
    if |events| == 0 then 0
    else
      var n := |events| - 1;
      CountWins(hypot, s, events[..n], table, id)
      + if WinsOn(hypot, Exec(hypot, s, events[..n]), events[n], table, id) then 1 else 0
  }

  /** A failed step stores nothing. */
  lemma FailureStoresNothing(hypot: Hypot, db: DB, thread: Thread, order: seq<nat>)
    requires Lost(Advance(hypot, db, thread, order).1)
    ensures Advance(hypot, db, thread, order).0 == db
  {
    hide ReadRuns;
  }

  /** A step that attempts no update leaves every stored version as it was. */
  lemma OthersKeepVersions(hypot: Hypot, db: DB, thread: Thread, order: seq<nat>, table: Table, id: nat)
    requires KeysOk(db) && Present(db, table, id) && Attempt(thread).None?
    ensures Present(Advance(hypot, db, thread, order).0, table, id)
    ensures VersionOf(Advance(hypot, db, thread, order).0, table, id) == VersionOf(db, table, id)
  {
    hide Advance, KeysOk;
    match table
    case Areas => OthersKeepAreas(hypot, db, thread, order, id);
    case Plans => OthersKeepPlans(hypot, db, thread, order, id);
    case Runs => OthersKeepRuns(hypot, db, thread, order, id);
    case Gaps => OthersKeepGaps(hypot, db, thread, order, id);
  }

  lemma OthersKeepAreas(hypot: Hypot, db: DB, thread: Thread, order: seq<nat>, id: nat)
    requires KeysOk(db) && id in db.areas && Attempt(thread).None?
    ensures var after := Advance(hypot, db, thread, order).0; id in after.areas && after.areas[id] == db.areas[id]
  {
    hide ReadRuns, ReplayOf, Coverage.Assess, Text.Analysed;
  }

  lemma OthersKeepPlans(hypot: Hypot, db: DB, thread: Thread, order: seq<nat>, id: nat)
    requires KeysOk(db) && id in db.plans && Attempt(thread).None?
    ensures var after := Advance(hypot, db, thread, order).0; id in after.plans && after.plans[id] == db.plans[id]
  {
    hide ReadRuns, ReplayOf, Coverage.Assess, Text.Analysed;
  }

  lemma OthersKeepRuns(hypot: Hypot, db: DB, thread: Thread, order: seq<nat>, id: nat)
    requires KeysOk(db) && id in db.runs && Attempt(thread).None?
    ensures var after := Advance(hypot, db, thread, order).0; id in after.runs && after.runs[id] == db.runs[id]
  {
    hide ReadRuns, ReplayOf, Coverage.Assess, Text.Analysed;
  }

  lemma OthersKeepGaps(hypot: Hypot, db: DB, thread: Thread, order: seq<nat>, id: nat)
    requires KeysOk(db) && id in db.gaps && !thread.GapRead?
    ensures var after := Advance(hypot, db, thread, order).0; id in after.gaps && after.gaps[id] == db.gaps[id]
  {
    hide ReadRuns, ReplayOf, Coverage.Assess, Text.Analysed;
  }

  /** An update attempted and not lost hit a row with the version it names, and raised it by one. */
  lemma AttemptRaises(hypot: Hypot, db: DB, thread: Thread, order: seq<nat>, table: Table, id: nat)
    requires Present(db, table, id) && Attempt(thread).Some? && !Lost(Advance(hypot, db, thread, order).1)
    ensures var hit := Attempt(thread).value;
            var after := Advance(hypot, db, thread, order).0;
            && Present(after, table, id)
            && VersionOf(after, table, id)
               == VersionOf(db, table, id) + (if hit.table == table && hit.id == id then 1 else 0)
            && (hit.table == table && hit.id == id ==> hit.version == VersionOf(db, table, id))
  {
    hide StoreGap, StoreReplay, ReadRuns, Text.WithNote;
  }

  /** An event raises the version of a row by one if it updates it, and otherwise leaves it. */
  lemma WinRaisesVersion(hypot: Hypot, s: System, e: Event, table: Table, id: nat)
    requires KeysOk(s.db) && Present(s.db, table, id)
    ensures Present(Apply(hypot, s, e).db, table, id)
    ensures VersionOf(Apply(hypot, s, e).db, table, id)
         == VersionOf(s.db, table, id) + if WinsOn(hypot, s, e, table, id) then 1 else 0
    ensures WinsOn(hypot, s, e, table, id) ==> Win(hypot, s, e).value.version == VersionOf(s.db, table, id)
  {
    hide Advance, Begin, KeysOk, Attempt, Lost, Present, VersionOf;
    if e.Step? && e.thread in s.threads {
      var thread := s.threads[e.thread];
      if Attempt(thread).None? {
        OthersKeepVersions(hypot, s.db, thread, e.order, table, id);
      } else if Lost(Advance(hypot, s.db, thread, e.order).1) {
        FailureStoresNothing(hypot, s.db, thread, e.order);
      } else {
        AttemptRaises(hypot, s.db, thread, e.order, table, id);
      }
    }
  }

  /** The version of a row is what it was plus the number of successful updates since. */
  lemma {:induction false} VersionCountsWins(hypot: Hypot, s: System, events: seq<Event>, table: Table, id: nat)
    requires SystemOk(hypot, s) && Present(s.db, table, id)
    ensures Present(Exec(hypot, s, events).db, table, id)
    ensures VersionOf(Exec(hypot, s, events).db, table, id)
         == VersionOf(s.db, table, id) + CountWins(hypot, s, events, table, id)
  {
    hide ThreadOk, Apply, WinsOn, VersionOf, Present, GapsOk, ReplaysOk, RunsOk, AreasOk, PlansOk;
    if |events| > 0 {
      var n := |events| - 1;
      VersionCountsWins(hypot, s, events[..n], table, id);
      ExecOk(hypot, s, events[..n]);
      WinRaisesVersion(hypot, Exec(hypot, s, events[..n]), events[n], table, id);
    }
  }

  lemma VersionsGrow(a: DB, b: DB, table: Table, id: nat)
    requires Evolves(a, b) && Present(a, table, id)
    ensures Present(b, table, id) && VersionOf(a, table, id) <= VersionOf(b, table, id)
  {
    match table
    case Areas => assert AreaEvolves(a.areas[id], b.areas[id]);
    case Plans => assert PlanEvolves(a.plans[id], b.plans[id]);
    case Runs => assert RunEvolves(a.runs[id], b.runs[id]);
    case Gaps => assert GapEvolves(a.gaps[id], b.gaps[id]);
  }

  /** The update the i-th event of a run performs. */
  ghost function WinAt(hypot: Hypot, events: seq<Event>, i: nat): Option<Claim>
    requires i < |events|
  {
    Win(hypot, Run(hypot, events[..i]), events[i])
  }

  /** An update wins only on a row that exists and has the version it names. */
  lemma WinHitsVersion(hypot: Hypot, s: System, e: Event)
    requires Win(hypot, s, e).Some?
    ensures var c := Win(hypot, s, e).value; Present(s.db, c.table, c.id) && VersionOf(s.db, c.table, c.id) == c.version
  {
  }

  /** Over any interleaving, two successful updates of one row name different versions, in order:
      at most one request wins per version. */
  lemma OneWinnerPerVersion(hypot: Hypot, events: seq<Event>, i: nat, j: nat)
    requires i < j < |events| && WinAt(hypot, events, i).Some? && WinAt(hypot, events, j).Some?
    requires WinAt(hypot, events, i).value.table == WinAt(hypot, events, j).value.table
    requires WinAt(hypot, events, i).value.id == WinAt(hypot, events, j).value.id
    ensures WinAt(hypot, events, i).value.version < WinAt(hypot, events, j).value.version
  {
    hide Win, VersionOf, Present, Evolves, Apply, DbOk, ThreadOk;
    var c, d := WinAt(hypot, events, i).value, WinAt(hypot, events, j).value;
    var s := Run(hypot, events[..i]);
    var later := Run(hypot, events[..j]);
    WinHitsVersion(hypot, s, events[i]);
    WinHitsVersion(hypot, later, events[j]);
    Reachable(hypot, events[..i]);
    assert KeysOk(s.db) by { KeysOfOk(hypot, s); }
    WinRaisesVersion(hypot, s, events[i], c.table, c.id);
    RunStep(hypot, events, i);
    RunEvolution(hypot, events, i + 1, j);
    VersionsGrow(Run(hypot, events[..i + 1]).db, later.db, c.table, c.id);
  }

  lemma KeysOfOk(hypot: Hypot, s: System)
    requires SystemOk(hypot, s)
    ensures KeysOk(s.db)
  {
  }

  /** In every reachable state, a pending change of a run's state succeeds exactly when the run is
      still, field by field, the one that was read and the expected version is its version. */
  lemma RunMoveSeesCurrentRow(hypot: Hypot, events: seq<Event>, t: nat, order: seq<nat>)
    requires t in Run(hypot, events).threads && Run(hypot, events).threads[t].RunRead?
    ensures var s := Run(hypot, events);
            var r := s.threads[t];
            && r.id in s.db.runs
            && (!Lost(Advance(hypot, s.db, r, order).1) <==> s.db.runs[r.id] == r.runBefore && r.expected == r.runBefore.version)
  {
    hide Run, DbOk, ThreadOk;
    var s := Run(hypot, events);
    Reachable(hypot, events);
    ReadRun(hypot, s, t);
    var r := s.threads[t];
    if MoveRun(s.db, r.id, r.expected, r.runBefore.state, r.runTarget).Some? {
      MoveRunHits(s.db, r.id, r.expected, r.runBefore, r.runTarget);
    }
  }

  lemma ReadRun(hypot: Hypot, s: System, t: nat)
    requires SystemOk(hypot, s) && t in s.threads && s.threads[t].RunRead?
    ensures var r := s.threads[t]; r.id in s.db.runs && RunEvolves(r.runBefore, s.db.runs[r.id])
  {
    hide SystemOk, GapEvolves, AreaEvolves, PlanEvolves, RunEvolves, DetectOk, ReplayThreadOk;
    ThreadHolds(hypot, s, t);
  }
}
