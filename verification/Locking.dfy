/** Locked plans and archived areas: what is permanent, and exactly when a frozen row can still be
    overwritten by an update that was already under way. */
module Locking {
  import opened Euclid
  import opened Rings
  import opened Records
  import opened Services
  import opened Evolution
  import opened Invariant
  import opened Preservation
  import opened Runs

  // ----- what holds without conditions

  /** A plan that is locked at one moment of a run is locked at every later one. */
  lemma LockedForever(hypot: Hypot, events: seq<Event>, i: nat, j: nat, id: nat)
    requires i <= j <= |events| && id in Run(hypot, events[..i]).db.plans
    requires Run(hypot, events[..i]).db.plans[id].state == LockedPlan
    ensures id in Run(hypot, events[..j]).db.plans && Run(hypot, events[..j]).db.plans[id].state == LockedPlan
  {
    hide Run;
    RunEvolution(hypot, events, i, j);
    LockedStays(Run(hypot, events[..i]).db, Run(hypot, events[..j]).db, id);
  }

  /** In every reachable state, the plan of every run is locked. */
  lemma RunsFlyLockedPlans(hypot: Hypot, events: seq<Event>, id: nat)
    requires id in Run(hypot, events).db.runs
    ensures var db := Run(hypot, events).db;
            db.runs[id].data.plan in db.plans && db.plans[db.runs[id].data.plan].state == LockedPlan
  {
    Reachable(hypot, events);
    hide Run;
    assert RunOk(Run(hypot, events).db, Run(hypot, events).db.runs[id]);
  }

  // ----- what an update of a plan or an area replaces

  /** What a waiting update knows of its plan. */
  lemma ReadPlan(hypot: Hypot, s: System, t: nat)
    requires SystemOk(hypot, s) && t in s.threads && (s.threads[t].PlanRead? || s.threads[t].LockRead?)
    ensures var r := s.threads[t]; r.id in s.db.plans && PlanEvolves(r.planBefore, s.db.plans[r.id])
  {
    hide SystemOk, GapEvolves, AreaEvolves, PlanEvolves, RunEvolves, DetectOk, ReplayThreadOk;
    ThreadHolds(hypot, s, t);
  }

  lemma ReadArea(hypot: Hypot, s: System, t: nat)
    requires SystemOk(hypot, s) && t in s.threads && s.threads[t].AreaRead?
    ensures var r := s.threads[t]; r.id in s.db.areas && AreaEvolves(r.areaBefore, s.db.areas[r.id])
  {
    hide SystemOk, GapEvolves, AreaEvolves, PlanEvolves, RunEvolves, DetectOk, ReplayThreadOk;
    ThreadHolds(hypot, s, t);
  }

  ghost predicate Updates(thread: Thread) {
    thread == Finished(Done)
  }

  /** In every reachable state, a waiting update of a plan succeeds exactly when the plan has the
      expected version; the row it read, which its audit entry gives as the one before, is then the row
      it replaces if and only if it had that version. */
  lemma PlanUpdateReplacesIff(hypot: Hypot, events: seq<Event>, t: nat, order: seq<nat>)
    requires t in Run(hypot, events).threads && Run(hypot, events).threads[t].PlanRead?
    ensures var s := Run(hypot, events);
            var r := s.threads[t];
            && r.id in s.db.plans
            && (Updates(Advance(hypot, s.db, r, order).1) <==> s.db.plans[r.id].version == r.expected)
            && (Updates(Advance(hypot, s.db, r, order).1) ==>
                  (s.db.plans[r.id] == r.planBefore <==> r.expected == r.planBefore.version))
  {
    hide Run, SystemOk;
    Reachable(hypot, events);
    ReadPlan(hypot, Run(hypot, events), t);
  }

  /** The same for locking, which also finds the plan a draft. */
  lemma LockReplacesIff(hypot: Hypot, events: seq<Event>, t: nat, order: seq<nat>)
    requires t in Run(hypot, events).threads && Run(hypot, events).threads[t].LockRead?
    ensures var s := Run(hypot, events);
            var r := s.threads[t];
            && r.id in s.db.plans
            && (Updates(Advance(hypot, s.db, r, order).1) <==>
                  s.db.plans[r.id].version == r.expected && s.db.plans[r.id].state == DraftPlan)
            && (Updates(Advance(hypot, s.db, r, order).1) ==>
                  (s.db.plans[r.id] == r.planBefore <==> r.expected == r.planBefore.version))
  {
    hide Run, SystemOk;
    Reachable(hypot, events);
    ReadPlan(hypot, Run(hypot, events), t);
  }

  /** The same for areas. */
  lemma AreaUpdateReplacesIff(hypot: Hypot, events: seq<Event>, t: nat, order: seq<nat>)
    requires t in Run(hypot, events).threads && Run(hypot, events).threads[t].AreaRead?
    ensures var s := Run(hypot, events);
            var r := s.threads[t];
            && r.id in s.db.areas
            && (Updates(Advance(hypot, s.db, r, order).1) <==> s.db.areas[r.id].version == r.expected)
            && (Updates(Advance(hypot, s.db, r, order).1) ==>
                  (s.db.areas[r.id] == r.areaBefore <==> r.expected == r.areaBefore.version))
  {
    hide Run, SystemOk;
    Reachable(hypot, events);
    ReadArea(hypot, Run(hypot, events), t);
  }

  // ----- with honest expectations, frozen rows never change

  /** The request does not expect a version its row has yet to reach. */
  ghost predicate HonestRequest(db: DB, request: Request) {
    match request
    case UpdatePlanRequest(id, expected, _) => id in db.plans ==> expected <= db.plans[id].version
    case UpdateAreaRequest(id, expected, _) => id in db.areas ==> expected <= db.areas[id].version
    case _ => true
  }

  ghost predicate Honest(hypot: Hypot, events: seq<Event>) {
    forall i :: 0 <= i < |events| ==> HonestEvent(hypot, events, i)
  }

  ghost predicate HonestEvent(hypot: Hypot, events: seq<Event>, i: nat)
    requires i < |events|
  {
    events[i].Start? ==> HonestRequest(Run(hypot, events[..i]).db, events[i].request)
  }

  ghost predicate HonestThread(thread: Thread) {
    match thread
    case PlanRead(_, expected, before, _) => expected <= before.version
    case AreaRead(_, expected, before, _) => expected <= before.version
    case _ => true
  }

  ghost predicate HonestThreads(s: System) {
    forall t :: t in s.threads ==> HonestThread(s.threads[t])
  }

  lemma HonestPrefix(hypot: Hypot, events: seq<Event>, i: nat)
    requires Honest(hypot, events) && i <= |events|
    ensures Honest(hypot, events[..i])
  {
    hide Run;
    forall k | 0 <= k < i ensures HonestEvent(hypot, events[..i], k) {
      assert events[..i][..k] == events[..k];
      assert HonestEvent(hypot, events, k);
    }
  }

  lemma HonestBegin(db: DB, request: Request)
    requires HonestRequest(db, request)
    ensures HonestThread(Begin(db, request))
  {
    hide ValidBoundary, Contains;
  }

  lemma HonestAdvance(hypot: Hypot, db: DB, thread: Thread, order: seq<nat>)
    requires HonestThread(thread)
    ensures HonestThread(Advance(hypot, db, thread, order).1)
  {
    hide ReadRuns, ReplayOf, Coverage.Assess;
    match thread
    case DetectRead(area, row, ids, algorithm, requested) => ReadRunsHonest(db, area, row, ids, order, algorithm, requested);
    case _ =>
  }

  lemma ReadRunsHonest(db: DB, area: nat, row: AreaRow, ids: seq<nat>, order: seq<nat>, algorithm: string, requested: real)
    ensures IsListing(order, ids, db.runs) ==> HonestThread(ReadRuns(db, area, row, ids, order, algorithm, requested))
  {
  }

  lemma {:induction false} RunHonest(hypot: Hypot, events: seq<Event>)
    requires Honest(hypot, events)
    ensures HonestThreads(Run(hypot, events))
  {
    hide Begin, Advance, HonestRequest, HonestThread;
    if |events| > 0 {
      var n := |events| - 1;
      HonestPrefix(hypot, events, n);
      RunHonest(hypot, events[..n]);
      var s := Run(hypot, events[..n]);
      assert HonestEvent(hypot, events, n);
      match events[n]
      case Start(t, request) => HonestBegin(s.db, request);
      case Step(t, order) => if t in s.threads { HonestAdvance(hypot, s.db, s.threads[t], order); }
    }
  }

  /** No single event changes a locked plan or an archived area when all threads are honest. */
  lemma FrozenStep(hypot: Hypot, s: System, e: Event, id: nat)
    requires SystemOk(hypot, s) && HonestThreads(s)
    ensures id in s.db.plans && s.db.plans[id].state == LockedPlan ==>
              id in Apply(hypot, s, e).db.plans && Apply(hypot, s, e).db.plans[id] == s.db.plans[id]
    ensures id in s.db.areas && s.db.areas[id].fields.status == ArchivedArea ==>
              id in Apply(hypot, s, e).db.areas && Apply(hypot, s, e).db.areas[id] == s.db.areas[id]
  {
    hide Begin, DbOk;
    if e.Step? && e.thread in s.threads {
      ThreadAndKeys(hypot, s, e.thread);
      FrozenAdvance(hypot, s.db, s.threads[e.thread], e.order, id);
    }
  }

  lemma ThreadAndKeys(hypot: Hypot, s: System, t: nat)
    requires SystemOk(hypot, s) && t in s.threads
    ensures ThreadOk(s.db, s.threads[t]) && KeysOk(s.db)
  {
  }

  lemma FrozenAdvance(hypot: Hypot, db: DB, thread: Thread, order: seq<nat>, id: nat)
    requires KeysOk(db) && ThreadOk(db, thread) && HonestThread(thread)
    ensures var after := Advance(hypot, db, thread, order).0;
            && (id in db.plans && db.plans[id].state == LockedPlan ==> id in after.plans && after.plans[id] == db.plans[id])
            && (id in db.areas && db.areas[id].fields.status == ArchivedArea ==> id in after.areas && after.areas[id] == db.areas[id])
  {
    hide Advance, ThreadOk, HonestThread, KeysOk;
    if id in db.plans && db.plans[id].state == LockedPlan {
      FrozenPlan(hypot, db, thread, order, id);
    }
    if id in db.areas && db.areas[id].fields.status == ArchivedArea {
      FrozenArea(hypot, db, thread, order, id);
    }
  }

  lemma FrozenPlan(hypot: Hypot, db: DB, thread: Thread, order: seq<nat>, id: nat)
    requires KeysOk(db) && ThreadOk(db, thread) && HonestThread(thread)
    requires id in db.plans && db.plans[id].state == LockedPlan
    ensures var after := Advance(hypot, db, thread, order).0; id in after.plans && after.plans[id] == db.plans[id]
  {
    hide ReadRuns, StoreGap, StoreReplay, ValidGeometry, DetectOk, RunEvolves, GapEvolves, AreaEvolves;
    StoresKeepRows(hypot, db, thread);
  }

  lemma FrozenArea(hypot: Hypot, db: DB, thread: Thread, order: seq<nat>, id: nat)
    requires KeysOk(db) && ThreadOk(db, thread) && HonestThread(thread)
    requires id in db.areas && db.areas[id].fields.status == ArchivedArea
    ensures var after := Advance(hypot, db, thread, order).0; id in after.areas && after.areas[id] == db.areas[id]
  {
    hide ReadRuns, StoreGap, StoreReplay, ValidGeometry, DetectOk, RunEvolves, GapEvolves, PlanEvolves;
    StoresKeepRows(hypot, db, thread);
  }

  lemma StoresKeepRows(hypot: Hypot, db: DB, thread: Thread)
    ensures thread.DetectMissed? ==>
              var after := StoreGap(db, thread.ids, thread.tracks, thread.key, thread.boundary).0;
              after.areas == db.areas && after.plans == db.plans
    ensures thread.ReplayMissed? ==>
              var after := StoreReplay(hypot, db, thread.run, thread.runBefore, thread.replayKey).0;
              after.areas == db.areas && after.plans == db.plans
  {
    hide ReplayOf, Coverage.Assess, Text.Analysed;
  }

  /** When no update expects a version beyond the one at its own read, a locked plan and an archived
      area keep every field over any interleaving. */
  lemma {:induction false} FrozenForever(hypot: Hypot, events: seq<Event>, i: nat, j: nat, id: nat)
    requires Honest(hypot, events) && i <= j <= |events|
    ensures var a, b := Run(hypot, events[..i]).db, Run(hypot, events[..j]).db;
            && (id in a.plans && a.plans[id].state == LockedPlan ==> id in b.plans && b.plans[id] == a.plans[id])
            && (id in a.areas && a.areas[id].fields.status == ArchivedArea ==> id in b.areas && b.areas[id] == a.areas[id])
    decreases j - i
  {
    hide Run, Apply, SystemOk, HonestThreads, Honest;
    if i < j {
      FrozenForever(hypot, events, i, j - 1, id);
      HonestPrefix(hypot, events, j - 1);
      RunHonest(hypot, events[..j - 1]);
      Reachable(hypot, events[..j - 1]);
      FrozenStep(hypot, Run(hypot, events[..j - 1]), events[j - 1], id);
      RunStep(hypot, events, j - 1);
    }
  }

  // ----- exactly when a frozen row can still be overwritten

  /** After these events the plan is locked, and the waiting update still changes it. */
  ghost predicate OverwritesLocked(hypot: Hypot, s: System, rest: seq<Event>, t: nat, id: nat)
    requires t in s.threads
  {
    var later := Exec(hypot, s, rest);
    && id in later.db.plans && later.db.plans[id].state == LockedPlan
    && t in later.threads && later.threads[t] == s.threads[t]
    && var after := Apply(hypot, later, Step(t, [])).db;
       id in after.plans && after.plans[id] != later.db.plans[id]
  }

  /** After these events the area is archived, and the waiting update still changes it. */
  ghost predicate OverwritesArchived(hypot: Hypot, s: System, rest: seq<Event>, t: nat, id: nat)
    requires t in s.threads
  {
    var later := Exec(hypot, s, rest);
    && id in later.db.areas && later.db.areas[id].fields.status == ArchivedArea
    && t in later.threads && later.threads[t] == s.threads[t]
    && var after := Apply(hypot, later, Step(t, [])).db;
       id in after.areas && after.areas[id] != later.db.areas[id]
  }

  /** Some draft content every check accepts. */
  const SAMPLE_PLAN := PlanFields("sample", [[Point(0.0, 0.0), Point(1.0, 0.0)]], 0.0, 1.0, 1.0)

  lemma BeginUpdate(db: DB, id: nat)
    requires id in db.plans && db.plans[id].state == DraftPlan && db.plans[id].version > 0
    ensures var row := db.plans[id];
            Begin(db, UpdatePlanRequest(id, row.version, SAMPLE_PLAN)) == PlanRead(id, row.version, row, SAMPLE_PLAN)
  {
    hide ValidBoundary, BeginReplay;
  }

  lemma BeginLock(db: DB, id: nat)
    requires id in db.plans && db.plans[id].state == DraftPlan && db.plans[id].version > 0
    ensures var row := db.plans[id]; Begin(db, LockPlanRequest(id, row.version)) == LockRead(id, row.version, row)
  {
    hide BoundArea, ValidGeometry, ValidBoundary, BeginReplay, ValidLines;
  }

  lemma BeginArea(db: DB, id: nat, fields: AreaFields)
    requires id in db.areas && db.areas[id].version > 0 && db.areas[id].fields.status != ArchivedArea
    requires BoundArea(fields) && ValidGeometry(fields)
    ensures var row := db.areas[id]; Begin(db, UpdateAreaRequest(id, row.version, fields)) == AreaRead(id, row.version, row, fields)
  {
    hide BoundArea, ValidGeometry, ValidBoundary, BeginReplay, ValidLines;
  }

  lemma AdvancePlan(hypot: Hypot, db: DB, id: nat)
    requires id in db.plans && db.plans[id].state == DraftPlan
    ensures var row := db.plans[id];
            && Advance(hypot, db, PlanRead(id, row.version, row, SAMPLE_PLAN), [])
               == (db.(plans := db.plans[id := row.(fields := SAMPLE_PLAN, version := row.version + 1)]), Finished(Done))
            && Advance(hypot, db, LockRead(id, row.version, row), [])
               == (db.(plans := db.plans[id := row.(state := LockedPlan, version := row.version + 1)]), Finished(Done))
  {
  }

  /** An update and a lock served alone, on a draft. */
  lemma PlanServed(hypot: Hypot, db: DB, id: nat)
    requires id in db.plans && db.plans[id].state == DraftPlan && db.plans[id].version > 0
    ensures var row := db.plans[id];
            && Alone(hypot, db, Begin(db, UpdatePlanRequest(id, row.version, SAMPLE_PLAN)), [], 1)
               == (db.(plans := db.plans[id := row.(fields := SAMPLE_PLAN, version := row.version + 1)]), Finished(Done))
            && Alone(hypot, db, Begin(db, LockPlanRequest(id, row.version)), [], 1)
               == (db.(plans := db.plans[id := row.(state := LockedPlan, version := row.version + 1)]), Finished(Done))
  {
    hide Begin, Alone, Advance;
    var row := db.plans[id];
    BeginUpdate(db, id);
    BeginLock(db, id);
    AdvancePlan(hypot, db, id);
    AloneOnce(hypot, db, PlanRead(id, row.version, row, SAMPLE_PLAN), []);
    AloneOnce(hypot, db, LockRead(id, row.version, row), []);
  }

  /** Other requests can bring a draft plan to any later version, locked. */
  lemma {:induction false} LockedAt(hypot: Hypot, s: System, t: nat, id: nat, version: nat) returns (rest: seq<Event>)
    requires t in s.threads && id in s.db.plans && s.db.plans[id].state == DraftPlan
    requires 0 < s.db.plans[id].version < version
    ensures var later := Exec(hypot, s, rest);
            && id in later.db.plans && later.db.plans[id].state == LockedPlan && later.db.plans[id].version == version
            && t in later.threads && later.threads[t] == s.threads[t]
    decreases version - s.db.plans[id].version
  {
    hide Exec, Serve, Begin, Alone;
    var u := AboveAll(s.threads.Keys);
    var now := s.db.plans[id].version;
    PlanServed(hypot, s.db, id);
    if now + 1 == version {
      rest := Serve(u, LockPlanRequest(id, now), [], 1);
      ServeAlone(hypot, s, u, LockPlanRequest(id, now), [], 1);
    } else {
      var first := Serve(u, UpdatePlanRequest(id, now, SAMPLE_PLAN), [], 1);
      ServeAlone(hypot, s, u, UpdatePlanRequest(id, now, SAMPLE_PLAN), [], 1);
      var more := LockedAt(hypot, Exec(hypot, s, first), t, id, version);
      rest := first + more;
      ExecSplit(hypot, s, first, more);
    }
  }

  lemma PlanVersionPositive(hypot: Hypot, s: System, id: nat)
    requires SystemOk(hypot, s) && id in s.db.plans
    ensures s.db.plans[id].version > 0
  {
    assert PlansOk(s.db);
  }

  /** While its plan is still a draft, a waiting update can end up overwriting the plan locked
      exactly when it expects a version the row has not reached yet. */
  lemma LockedOverwriteIff(hypot: Hypot, s: System, t: nat)
    requires SystemOk(hypot, s) && t in s.threads && s.threads[t].PlanRead?
    requires s.threads[t].id in s.db.plans && s.db.plans[s.threads[t].id].state == DraftPlan
    ensures (exists rest :: OverwritesLocked(hypot, s, rest, t, s.threads[t].id))
       <==> s.threads[t].expected > s.db.plans[s.threads[t].id].version
  {
    hide SystemOk, OverwritesLocked;
    if s.threads[t].expected > s.db.plans[s.threads[t].id].version {
      var rest := OverwriteLocked(hypot, s, t);
    } else {
      forall rest ensures !OverwritesLocked(hypot, s, rest, t, s.threads[t].id) {
        NeverOverwritesLocked(hypot, s, rest, t);
      }
    }
  }

  lemma OverwriteLocked(hypot: Hypot, s: System, t: nat) returns (rest: seq<Event>)
    requires SystemOk(hypot, s) && t in s.threads && s.threads[t].PlanRead?
    requires s.threads[t].id in s.db.plans && s.db.plans[s.threads[t].id].state == DraftPlan
    requires s.threads[t].expected > s.db.plans[s.threads[t].id].version
    ensures OverwritesLocked(hypot, s, rest, t, s.threads[t].id)
  {
    hide SystemOk, Exec, Advance;
    var r := s.threads[t];
    PlanVersionPositive(hypot, s, r.id);
    rest := LockedAt(hypot, s, t, r.id, r.expected);
    WritesPlan(hypot, Exec(hypot, s, rest).db, r);
  }

  /** What the step of a waiting plan update does. */
  lemma WritesPlan(hypot: Hypot, db: DB, r: Thread)
    requires r.PlanRead? && r.id in db.plans
    ensures Advance(hypot, db, r, []).0
         == if db.plans[r.id].version != r.expected then db
            else db.(plans := db.plans[r.id := db.plans[r.id].(fields := r.plan, version := r.expected + 1)])
  {
  }

  lemma NeverOverwritesLocked(hypot: Hypot, s: System, rest: seq<Event>, t: nat)
    requires SystemOk(hypot, s) && t in s.threads && s.threads[t].PlanRead?
    requires s.threads[t].id in s.db.plans && s.db.plans[s.threads[t].id].state == DraftPlan
    requires s.threads[t].expected <= s.db.plans[s.threads[t].id].version
    ensures !OverwritesLocked(hypot, s, rest, t, s.threads[t].id)
  {
    hide SystemOk, Exec, Advance;
    var id := s.threads[t].id;
    ExecOk(hypot, s, rest);
    var later := Exec(hypot, s, rest);
    assert PlanEvolves(s.db.plans[id], later.db.plans[id]);
    WritesPlan(hypot, later.db, s.threads[t]);
  }

  // ----- the same for areas

  /** An update of nothing but the status served alone. */
  lemma AreaServed(hypot: Hypot, db: DB, id: nat, status: AreaStatus)
    requires id in db.areas && db.areas[id].fields.status != ArchivedArea && AreaOk(db.areas[id])
    ensures var row := db.areas[id];
            var fields := row.fields.(status := status);
            && AreaOk(row.(fields := fields, version := row.version + 1))
            && Alone(hypot, db, Begin(db, UpdateAreaRequest(id, row.version, fields)), [], 1)
               == (db.(areas := db.areas[id := row.(fields := fields, version := row.version + 1)]), Finished(Done))
  {
    hide Begin, BoundArea, ValidGeometry, Alone;
    var row := db.areas[id];
    var fields := row.fields.(status := status);
    StatusFree(row.fields, status);
    BeginArea(db, id, fields);
    AloneOnce(hypot, db, AreaRead(id, row.version, row, fields), []);
    AdvanceArea(hypot, db, id, fields);
  }

  lemma AdvanceArea(hypot: Hypot, db: DB, id: nat, fields: AreaFields)
    requires id in db.areas
    ensures var row := db.areas[id];
            Advance(hypot, db, AreaRead(id, row.version, row, fields), [])
            == (db.(areas := db.areas[id := row.(fields := fields, version := row.version + 1)]), Finished(Done))
  {
  }

  /** Other requests can bring an area that is not archived to any later version, archived. */
  lemma {:induction false} ArchivedAt(hypot: Hypot, s: System, t: nat, id: nat, version: nat) returns (rest: seq<Event>)
    requires t in s.threads && id in s.db.areas && s.db.areas[id].fields.status != ArchivedArea
    requires s.db.areas[id].version < version && AreaOk(s.db.areas[id])
    ensures var later := Exec(hypot, s, rest);
            && id in later.db.areas && later.db.areas[id].fields.status == ArchivedArea
            && later.db.areas[id].version == version
            && t in later.threads && later.threads[t] == s.threads[t]
    decreases version - s.db.areas[id].version
  {
    hide Exec, Serve, Begin, Alone, AreaOk;
    var u := AboveAll(s.threads.Keys);
    var row := s.db.areas[id];
    var status := if row.version + 1 == version then ArchivedArea else ActiveArea;
    AreaServed(hypot, s.db, id, status);
    var request := UpdateAreaRequest(id, row.version, row.fields.(status := status));
    ServeAlone(hypot, s, u, request, [], 1);
    rest := Serve(u, request, [], 1);
    if row.version + 1 < version {
      var more := ArchivedAt(hypot, Exec(hypot, s, rest), t, id, version);
      ExecSplit(hypot, s, rest, more);
      rest := rest + more;
    }
  }

  /** While its area is not archived, a waiting update can end up overwriting the area archived
      exactly when it expects a version the row has not reached yet. */
  lemma ArchivedOverwriteIff(hypot: Hypot, s: System, t: nat)
    requires SystemOk(hypot, s) && t in s.threads && s.threads[t].AreaRead?
    requires s.threads[t].id in s.db.areas && s.db.areas[s.threads[t].id].fields.status != ArchivedArea
    ensures (exists rest :: OverwritesArchived(hypot, s, rest, t, s.threads[t].id))
       <==> s.threads[t].expected > s.db.areas[s.threads[t].id].version
  {
    hide SystemOk, OverwritesArchived;
    if s.threads[t].expected > s.db.areas[s.threads[t].id].version {
      var rest := OverwriteArchived(hypot, s, t);
    } else {
      forall rest ensures !OverwritesArchived(hypot, s, rest, t, s.threads[t].id) {
        NeverOverwritesArchived(hypot, s, rest, t);
      }
    }
  }

  lemma OverwriteArchived(hypot: Hypot, s: System, t: nat) returns (rest: seq<Event>)
    requires SystemOk(hypot, s) && t in s.threads && s.threads[t].AreaRead?
    requires s.threads[t].id in s.db.areas && s.db.areas[s.threads[t].id].fields.status != ArchivedArea
    requires s.threads[t].expected > s.db.areas[s.threads[t].id].version
    ensures OverwritesArchived(hypot, s, rest, t, s.threads[t].id)
  {
    AreaFacts(hypot, s.db, s.threads[t].id);
    hide SystemOk, Exec, Advance, AreaOk;
    var r := s.threads[t];
    rest := ArchivedAt(hypot, s, t, r.id, r.expected);
    WritesArea(hypot, Exec(hypot, s, rest).db, r);
  }

  /** What the step of a waiting area update does. */
  lemma WritesArea(hypot: Hypot, db: DB, r: Thread)
    requires r.AreaRead? && r.id in db.areas
    ensures Advance(hypot, db, r, []).0
         == if db.areas[r.id].version != r.expected then db
            else db.(areas := db.areas[r.id := db.areas[r.id].(fields := r.fields, version := r.expected + 1)])
  {
  }

  lemma NeverOverwritesArchived(hypot: Hypot, s: System, rest: seq<Event>, t: nat)
    requires SystemOk(hypot, s) && t in s.threads && s.threads[t].AreaRead?
    requires s.threads[t].id in s.db.areas && s.db.areas[s.threads[t].id].fields.status != ArchivedArea
    requires s.threads[t].expected <= s.db.areas[s.threads[t].id].version
    ensures !OverwritesArchived(hypot, s, rest, t, s.threads[t].id)
  {
    hide SystemOk, Exec, Advance;
    var id := s.threads[t].id;
    ExecOk(hypot, s, rest);
    var later := Exec(hypot, s, rest);
    assert AreaEvolves(s.db.areas[id], later.db.areas[id]);
    WritesArea(hypot, later.db, s.threads[t]);
  }
}
